/** The brace-pattern expander of the configuration. */
module PatternExpander {
  import opened Wrappers

  datatype ExpandError = InvalidSymbol(pos: nat) | ParsingStopped(pos: nat)

  const ListDelim := ','
  const ListStart := '{'
  const ListEnd := '}'
  const Nul := '\0'

  /** `c_str()`: the string with a terminating zero after it. */
  function CharAt(s: string, i: nat): char
    requires i <= |s|
  {
    if i < |s| then s[i] else Nul
  }

  /** Where a word starting at `i` ends. */
  function WordEnd(s: string, i: nat, nested: bool): (end: nat)
    requires i <= |s|
    ensures i <= end <= |s|
    decreases |s| - i
  {
    if Ends(CharAt(s, i), nested) then i else WordEnd(s, i + 1, nested)
  }

  predicate Ends(c: char, nested: bool) {
    c == Nul || c == ListStart || (nested && (c == ListEnd || c == ListDelim))
  }

  /** One word before each of the words. */
  function Prefixed(w: string, words: seq<string>): (r: seq<string>)
    ensures |r| == |words|
    ensures forall i :: 0 <= i < |words| ==> r[i] == w + words[i]
  {
    if words == [] then [] else Prefixed(w, words[..|words| - 1]) + [w + words[|words| - 1]]
  }

  /** Every word of the list, in order, before every word of the postscript, in order. */
  function Cross(preamble: string, list: seq<string>, postscript: seq<string>): seq<string> {
    if list == [] then []
    else Cross(preamble, list[..|list| - 1], postscript) + Prefixed(preamble + list[|list| - 1], postscript)
  }

  datatype Expansion = Expansion(words: seq<string>, end: nat)

  function Expand(s: string, pos: nat, nested: bool): (r: Result<Expansion, ExpandError>)
    requires pos <= |s|
    ensures r.Ok? ==> pos <= r.value.end <= |s|
    decreases |s| - pos, 0
  {
    var open := WordEnd(s, pos, nested);
    if CharAt(s, open) != ListStart then Ok(Expansion([s[pos..open]], open))
    else
      var list := ExpandList(s, open + 1);
      if list.Err? then list
      else Grouped(s[pos..open], list.value, Expand(s, list.value.end + 1, nested))
  }

  /** The items of a list from `start` on; it ends at the closing brace. */
  function ExpandList(s: string, start: nat): (r: Result<Expansion, ExpandError>)
    requires start <= |s|
    ensures r.Ok? ==> start <= r.value.end < |s| && s[r.value.end] == ListEnd
    decreases |s| - start, 1
  {
    var item := Expand(s, start, true);
    if item.Err? || CharAt(s, item.value.end) == ListEnd then item
    else if CharAt(s, item.value.end) == ListDelim then
      Prepended(item.value.words, ExpandList(s, item.value.end + 1))
    else Err(InvalidSymbol(item.value.end))
  }

  /** A group, from what its list and its postscript expand to. */
  function Grouped(preamble: string, list: Expansion, postscript: Result<Expansion, ExpandError>)
    : (r: Result<Expansion, ExpandError>)
    ensures r.Ok? <==> postscript.Ok?
    ensures r.Err? ==> r == postscript
    ensures r.Ok? ==> r.value.end == postscript.value.end
  {
    match postscript
    case Err(e) => Err(e)
    case Ok(x) => Ok(Expansion(Cross(preamble, list.words, x.words), x.end))
  }

  /** An item of a list before the rest of it. */
  function Prepended(words: seq<string>, rest: Result<Expansion, ExpandError>)
    : (r: Result<Expansion, ExpandError>)
    ensures r.Ok? <==> rest.Ok?
    ensures r.Err? ==> r == rest
    ensures r.Ok? ==> r.value.end == rest.value.end
  {
    match rest
    case Err(e) => Err(e)
    case Ok(list) => Ok(Expansion(words + list.words, list.end))
  }

  lemma WordExpands(s: string, pos: nat, nested: bool, end: nat)
    requires pos <= |s| && WordEnd(s, pos, nested) == end && CharAt(s, end) != ListStart
    ensures Expand(s, pos, nested) == Ok(Expansion([s[pos..end]], end))
  {
  }

  lemma GroupExpands(s: string, pos: nat, nested: bool, open: nat)
    requires pos <= |s| && WordEnd(s, pos, nested) == open && CharAt(s, open) == ListStart
    ensures var list := ExpandList(s, open + 1);
            Expand(s, pos, nested) ==
              if list.Err? then list
              else Grouped(s[pos..open], list.value, Expand(s, list.value.end + 1, nested))
  {
  }

  lemma PrependedNone(rest: Result<Expansion, ExpandError>)
    ensures Prepended([], rest) == rest
  {
    if rest.Ok? {
      assert [] + rest.value.words == rest.value.words;
    }
  }

  lemma PrependedTwice(a: seq<string>, b: seq<string>, rest: Result<Expansion, ExpandError>)
    ensures Prepended(a, Prepended(b, rest)) == Prepended(a + b, rest)
  {
    if rest.Ok? {
      assert a + (b + rest.value.words) == a + b + rest.value.words;
    }
  }

  function ExpandWhole(pattern: string): Result<seq<string>, ExpandError> {
    match Expand(pattern, 0, false)
    case Err(e) => Err(e)
    case Ok(x) => if x.end == |pattern| then Ok(x.words) else Err(ParsingStopped(x.end))
  }

  // ---- The loops of the original --------------------------------------------------------------

  method CrossLoops(preamble: string, list: seq<string>, postscript: seq<string>) returns (expansion: seq<string>)
    ensures expansion == Cross(preamble, list, postscript)
  {
    expansion := [];
    for i := 0 to |list|
      invariant expansion == Cross(preamble, list[..i], postscript)
    {
      ghost var before := expansion;
      for j := 0 to |postscript|
        invariant expansion == before + Prefixed(preamble + list[i], postscript[..j])
      {
        expansion := expansion + [preamble + list[i] + postscript[j]];
        assert postscript[..j + 1][..j] == postscript[..j];
      }
      assert postscript[..|postscript|] == postscript;
      assert list[..i + 1][..i] == list[..i];
    }
    assert list[..|list|] == list;
  }

  method ScanWord(s: string, pos: nat, nested: bool) returns (preambleEnd: nat)
    requires pos <= |s|
    ensures preambleEnd == WordEnd(s, pos, nested)
  {
    preambleEnd := pos;
    while true
      invariant pos <= preambleEnd <= |s|
      invariant WordEnd(s, pos, nested) == WordEnd(s, preambleEnd, nested)
      decreases |s| - preambleEnd
    {
      if CharAt(s, preambleEnd) == Nul {
        break;
      }
      if CharAt(s, preambleEnd) == ListStart {
        break;
      }
      if nested && (CharAt(s, preambleEnd) == ListEnd || CharAt(s, preambleEnd) == ListDelim) {
        break;
      }
      preambleEnd := preambleEnd + 1;
    }
  }

  /** `expand_pattern`, with the position it takes and gives back. */
  method ExpandPattern(s: string, pos: nat, nested: bool) returns (r: Result<Expansion, ExpandError>)
    requires pos <= |s|
    ensures r == Expand(s, pos, nested)
    decreases |s| - pos, 0
  {
    hide Expand, ExpandList, WordEnd, Cross;
    var preambleEnd := ScanWord(s, pos, nested);
    var preamble := s[pos..preambleEnd];
    if CharAt(s, preambleEnd) != ListStart {
      WordExpands(s, pos, nested, preambleEnd);
      return Ok(Expansion([preamble], preambleEnd));
    }
    GroupExpands(s, pos, nested, preambleEnd);
    var list := ExpandItems(s, preambleEnd + 1);
    if list.Err? {
      return list;
    }
    var postscript := ExpandPattern(s, list.value.end + 1, nested);
    if postscript.Err? {
      return postscript;
    }
    var expansion := CrossLoops(preamble, list.value.words, postscript.value.words);
    return Ok(Expansion(expansion, postscript.value.end));
  }

  /** Its loop over the items of a list. */
  method ExpandItems(s: string, start: nat) returns (r: Result<Expansion, ExpandError>)
    requires start <= |s|
    ensures r == ExpandList(s, start)
    decreases |s| - start, 1
  {
    var words := [];
    var listEnd := start;
    PrependedNone(ExpandList(s, listEnd));
    while true
      invariant start <= listEnd <= |s|
      invariant ExpandList(s, start) == Prepended(words, ExpandList(s, listEnd))
      decreases |s| - listEnd
    {
      var item := ExpandPattern(s, listEnd, true);
      if item.Err? {
        return item;
      }
      var end := item.value.end;
      if CharAt(s, end) == ListDelim {
        PrependedTwice(words, item.value.words, ExpandList(s, end + 1));
        words := words + item.value.words;
        listEnd := end + 1;
      } else if CharAt(s, end) == ListEnd {
        return Ok(Expansion(words + item.value.words, end));
      } else {
        return Err(InvalidSymbol(end));
      }
    }
  }

  method ExpandPatternString(pattern: string) returns (r: Result<seq<string>, ExpandError>)
    ensures r == ExpandWhole(pattern)
  {
    var x := ExpandPattern(pattern, 0, false);
    match x
    case Err(e) => return Err(e);
    case Ok(v) =>
      if v.end == |pattern| {
        return Ok(v.words);
      } else {
        return Err(ParsingStopped(v.end));
      }
  }
}
