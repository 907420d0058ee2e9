/** What the expander means: a grammar, a denotation, and when a string belongs to the grammar. */
module PatternTheorems {
  import opened Wrappers
  import opened PatternExpander

  /** pattern ::= word | word { list } pattern, and list ::= pattern | pattern , list */
  datatype Pattern = Word(word: string) | Group(preamble: string, items: Items, postscript: Pattern)
  datatype Items = One(item: Pattern) | More(item: Pattern, rest: Items)

  function Print(p: Pattern): string {
    match p
    case Word(w) => w
    case Group(preamble, items, postscript) =>
      preamble + [ListStart] + PrintItems(items) + [ListEnd] + Print(postscript)
  }

  function PrintItems(items: Items): string {
    match items
    case One(p) => Print(p)
    case More(p, rest) => Print(p) + [ListDelim] + PrintItems(rest)
  }

  /** Concatenation is the cross product, a list is the union in order. */
  function Denote(p: Pattern): seq<string> {
    match p
    case Word(w) => [w]
    case Group(preamble, items, postscript) => Cross(preamble, DenoteItems(items), Denote(postscript))
  }

  function DenoteItems(items: Items): seq<string> {
    match items
    case One(p) => Denote(p)
    case More(p, rest) => Denote(p) + DenoteItems(rest)
  }

  /** No character of the word would end it: none is special, but outside all braces a closing brace
      or a comma is an ordinary character. */
  predicate PlainWord(w: string, nested: bool) {
    forall i :: 0 <= i < |w| ==> !Ends(w[i], nested)
  }

  predicate Plain(p: Pattern, nested: bool) {
    match p
    case Word(w) => PlainWord(w, nested)
    case Group(preamble, items, postscript) =>
      PlainWord(preamble, nested) && PlainItems(items) && Plain(postscript, nested)
  }

  predicate PlainItems(items: Items) {
    match items
    case One(p) => Plain(p, true)
    case More(p, rest) => Plain(p, true) && PlainItems(rest)
  }

  /** The character after a pattern ends it. */
  predicate StopsAt(c: char, nested: bool) {
    Ends(c, nested) && c != ListStart
  }

  // ---- One level of a list -----------------------------------------------------------------

  lemma ListExpands(s: string, start: nat)
    requires start <= |s| && Expand(s, start, true).Ok?
    requires CharAt(s, Expand(s, start, true).value.end) == ListDelim
    ensures var item := Expand(s, start, true).value;
            ExpandList(s, start) == Prepended(item.words, ExpandList(s, item.end + 1))
  {
  }

  lemma ListEnds(s: string, start: nat)
    requires start <= |s| && Expand(s, start, true).Ok?
    requires CharAt(s, Expand(s, start, true).value.end) == ListEnd
    ensures ExpandList(s, start) == Expand(s, start, true)
  {
  }

  // ---- Printing, then expanding ---------------------------------------------------------------

  lemma {:induction false} WordEndOfWord(s: string, i: nat, end: nat, nested: bool)
    requires i <= end <= |s|
    requires PlainWord(s[i..end], nested) && Ends(CharAt(s, end), nested)
    ensures WordEnd(s, i, nested) == end
    decreases end - i
  {
    if i < end {
      assert s[i..end][0] == s[i];
      assert s[i + 1..end] == s[i..end][1..];
      WordEndOfWord(s, i + 1, end, nested);
    }
  }

  /** `text` stands in `s` at `pos`. */
  ghost predicate At(s: string, pos: nat, text: string) {
    pos + |text| <= |s| && s[pos..pos + |text|] == text
  }

  lemma AtSplit(s: string, pos: nat, a: string, b: string)
    requires At(s, pos, a + b)
    ensures At(s, pos, a) && At(s, pos + |a|, b)
  {
    var t := s[pos..pos + |a + b|];
    assert t[..|a|] == a && t[|a|..] == b;
    assert s[pos..pos + |a|] == t[..|a|];
    assert s[pos + |a|..pos + |a| + |b|] == t[|a|..];
  }

  lemma AtSymbol(s: string, pos: nat, c: char)
    requires At(s, pos, [c])
    ensures s[pos] == c
  {
    assert s[pos..pos + 1][0] == c;
  }

  lemma WordAt(s: string, pos: nat, w: string, nested: bool)
    requires At(s, pos, w) && PlainWord(w, nested) && Ends(CharAt(s, pos + |w|), nested)
    ensures WordEnd(s, pos, nested) == pos + |w| && s[pos..pos + |w|] == w
  {
    WordEndOfWord(s, pos, pos + |w|, nested);
  }

  lemma GroupParts(s: string, pos: nat, preamble: string, list: string, postscript: string)
    requires At(s, pos, preamble + [ListStart] + list + [ListEnd] + postscript)
    ensures var open := pos + |preamble|;
            var close := open + 1 + |list|;
            && close + 1 + |postscript| <= |s|
            && At(s, pos, preamble) && At(s, open + 1, list) && At(s, close + 1, postscript)
            && s[open] == ListStart && s[close] == ListEnd
  {
    AtSplit(s, pos, preamble + [ListStart] + list + [ListEnd], postscript);
    AtSplit(s, pos, preamble + [ListStart] + list, [ListEnd]);
    AtSplit(s, pos, preamble + [ListStart], list);
    AtSplit(s, pos, preamble, [ListStart]);
    AtSymbol(s, pos + |preamble|, ListStart);
    AtSymbol(s, pos + |preamble| + 1 + |list|, ListEnd);
  }

  lemma ListParts(s: string, pos: nat, item: string, rest: string)
    requires At(s, pos, item + [ListDelim] + rest)
    ensures At(s, pos, item) && At(s, pos + |item| + 1, rest) && s[pos + |item|] == ListDelim
  {
    AtSplit(s, pos, item + [ListDelim], rest);
    AtSplit(s, pos, item, [ListDelim]);
    AtSymbol(s, pos + |item|, ListDelim);
  }

  /** Wherever the text of a pattern stands, followed by something that ends it, expanding there
      yields exactly the denotation and stops right after the text. */
  lemma {:induction false} ExpandPrinted(s: string, pos: nat, p: Pattern, nested: bool)
    requires At(s, pos, Print(p)) && Plain(p, nested)
    requires StopsAt(CharAt(s, pos + |Print(p)|), nested)
    ensures Expand(s, pos, nested) == Ok(Expansion(Denote(p), pos + |Print(p)|))
    decreases p, 0
  {
    hide Expand, ExpandList, WordEnd, Cross, At;
    match p
    case Word(w) =>
      WordAt(s, pos, w, nested);
      WordExpands(s, pos, nested, pos + |w|);
    case Group(preamble, items, postscript) =>
      var list := PrintItems(items);
      GroupParts(s, pos, preamble, list, Print(postscript));
      var open := pos + |preamble|;
      var close := open + 1 + |list|;
      WordAt(s, pos, preamble, nested);
      ExpandPrintedItems(s, open + 1, items);
      ExpandPrinted(s, close + 1, postscript, nested);
      GroupExpands(s, pos, nested, open);
  }

  lemma {:induction false} ExpandPrintedItems(s: string, start: nat, items: Items)
    requires At(s, start, PrintItems(items)) && PlainItems(items)
    requires CharAt(s, start + |PrintItems(items)|) == ListEnd
    ensures ExpandList(s, start) == Ok(Expansion(DenoteItems(items), start + |PrintItems(items)|))
    decreases items, 1
  {
    hide Expand, ExpandList;
    match items
    case One(p) =>
      ExpandPrinted(s, start, p, true);
      ListEnds(s, start);
    case More(p, rest) =>
      ListParts(s, start, Print(p), PrintItems(rest));
      ExpandPrinted(s, start, p, true);
      ExpandPrintedItems(s, start + |Print(p)| + 1, rest);
      ListExpands(s, start);
  }

  /** Expanding the text of a pattern yields its denotation. */
  lemma PrintThenExpand(p: Pattern)
    requires Plain(p, false)
    ensures ExpandWhole(Print(p)) == Ok(Denote(p))
  {
    assert Print(p)[0..|Print(p)|] == Print(p);
    ExpandPrinted(Print(p), 0, p, false);
  }

  /** Words free of all special symbols are plain outside braces too. */
  lemma {:induction false} PlainEverywhere(p: Pattern)
    requires Plain(p, true)
    ensures Plain(p, false)
    decreases p
  {
    if p.Group? {
      PlainEverywhere(p.postscript);
    }
  }

  /** A pattern whose words are free of all special symbols can be expanded in either mode: as a
      whole string, and as an item of a list, before whatever ends that item. */
  lemma SymbolFreeExpands(p: Pattern, c: char)
    requires Plain(p, true) && StopsAt(c, true)
    ensures ExpandWhole(Print(p)) == Ok(Denote(p))
    ensures Expand(Print(p) + [c], 0, true) == Ok(Expansion(Denote(p), |Print(p)|))
  {
    hide Expand, ExpandWhole, Denote, Print, Plain;
    PlainEverywhere(p);
    PrintThenExpand(p);
    assert (Print(p) + [c])[0..|Print(p)|] == Print(p);
    ExpandPrinted(Print(p) + [c], 0, p, true);
  }

  // ---- The grammar is unambiguous -------------------------------------------------------------

  lemma SameAt(s: string, pos: nat, a: string, b: string)
    requires At(s, pos, a) && At(s, pos, b) && |a| == |b|
    ensures a == b
  {
  }

  /** Two patterns whose texts stand in the same place, each followed by something that ends it, are
      the same pattern. */
  lemma {:induction false} SamePattern(s: string, pos: nat, p: Pattern, q: Pattern, nested: bool)
    requires At(s, pos, Print(p)) && Plain(p, nested) && StopsAt(CharAt(s, pos + |Print(p)|), nested)
    requires At(s, pos, Print(q)) && Plain(q, nested) && StopsAt(CharAt(s, pos + |Print(q)|), nested)
    ensures p == q
    decreases p, 0
  {
    hide At, WordEnd, PrintItems, PlainItems;
    SameKind(s, pos, p, q, nested);
    if p.Word? {
      SameAt(s, pos, p.word, q.word);
    } else {
      var (a, l, z) := (p.preamble, PrintItems(p.items), Print(p.postscript));
      var (a', l', z') := (q.preamble, PrintItems(q.items), Print(q.postscript));
      GroupParts(s, pos, a, l, z);
      GroupParts(s, pos, a', l', z');
      SameAt(s, pos, a, a');
      SameItems(s, pos + |a| + 1, p.items, q.items);
      SamePattern(s, pos + |a| + 1 + |l| + 1, p.postscript, q.postscript, nested);
    }
  }

  /** The first word ends in the same place, and what comes there tells a word from a group. */
  lemma SameKind(s: string, pos: nat, p: Pattern, q: Pattern, nested: bool)
    requires At(s, pos, Print(p)) && Plain(p, nested) && StopsAt(CharAt(s, pos + |Print(p)|), nested)
    requires At(s, pos, Print(q)) && Plain(q, nested) && StopsAt(CharAt(s, pos + |Print(q)|), nested)
    ensures p.Word? <==> q.Word?
    ensures p.Word? ==> |p.word| == |q.word|
    ensures p.Group? ==> |p.preamble| == |q.preamble|
  {
    hide At, WordEnd;
    FirstWord(s, pos, p, nested);
    FirstWord(s, pos, q, nested);
  }

  lemma FirstWord(s: string, pos: nat, p: Pattern, nested: bool)
    requires At(s, pos, Print(p)) && Plain(p, nested) && StopsAt(CharAt(s, pos + |Print(p)|), nested)
    ensures pos <= |s|
    ensures WordEnd(s, pos, nested) == pos + if p.Word? then |p.word| else |p.preamble|
    ensures p.Group? <==> CharAt(s, WordEnd(s, pos, nested)) == ListStart
  {
    hide WordEnd;
    match p
    case Word(w) => WordAt(s, pos, w, nested);
    case Group(preamble, items, postscript) =>
      GroupParts(s, pos, preamble, PrintItems(items), Print(postscript));
      WordAt(s, pos, preamble, nested);
  }

  lemma {:induction false} SameItems(s: string, start: nat, a: Items, b: Items)
    requires At(s, start, PrintItems(a)) && PlainItems(a) && CharAt(s, start + |PrintItems(a)|) == ListEnd
    requires At(s, start, PrintItems(b)) && PlainItems(b) && CharAt(s, start + |PrintItems(b)|) == ListEnd
    ensures a == b
    decreases a, 1
  {
    hide At, Print, Plain;
    ItemParts(s, start, a);
    ItemParts(s, start, b);
    SamePattern(s, start, a.item, b.item, true);
    if a.More? {
      SameItems(s, start + |Print(a.item)| + 1, a.rest, b.rest);
    }
  }

  /** The first item of a list, and what comes after it. */
  lemma ItemParts(s: string, start: nat, a: Items)
    requires At(s, start, PrintItems(a)) && PlainItems(a) && CharAt(s, start + |PrintItems(a)|) == ListEnd
    ensures At(s, start, Print(a.item)) && Plain(a.item, true) && start + |Print(a.item)| <= |s|
    ensures CharAt(s, start + |Print(a.item)|) == if a.More? then ListDelim else ListEnd
    ensures a.More? ==>
              && At(s, start + |Print(a.item)| + 1, PrintItems(a.rest)) && PlainItems(a.rest)
              && start + |Print(a.item)| + 1 + |PrintItems(a.rest)| <= |s|
              && CharAt(s, start + |Print(a.item)| + 1 + |PrintItems(a.rest)|) == ListEnd
  {
    hide Print, Plain;
    match a
    case One(_) =>
    case More(p, rest) => ListParts(s, start, Print(p), PrintItems(rest));
  }

  /** A text is the text of one pattern only. */
  lemma TextDeterminesPattern(p: Pattern, q: Pattern)
    requires Plain(p, false) && Plain(q, false) && Print(p) == Print(q)
    ensures p == q
  {
    assert Print(p)[0..|Print(p)|] == Print(p);
    SamePattern(Print(p), 0, p, q, false);
  }

  // ---- Expanding, then printing ---------------------------------------------------------------

  lemma {:induction false} WordEndIsPlain(s: string, i: nat, nested: bool)
    requires i <= |s|
    ensures var end := WordEnd(s, i, nested);
            PlainWord(s[i..end], nested) && Ends(CharAt(s, end), nested)
    decreases |s| - i
  {
    var end := WordEnd(s, i, nested);
    if !Ends(CharAt(s, i), nested) {
      WordEndIsPlain(s, i + 1, nested);
      assert s[i..end] == [s[i]] + s[i + 1..end];
    }
  }

  /** Whatever is expanded without an error is the text of a pattern, and its denotation is what is
      returned; where the expansion stops, the text of the pattern ends. */
  lemma {:induction false} ExpandedIsPrinted(s: string, pos: nat, nested: bool) returns (p: Pattern)
    requires pos <= |s| && Expand(s, pos, nested).Ok?
    ensures var x := Expand(s, pos, nested).value;
            && Plain(p, nested) && Denote(p) == x.words && Print(p) == s[pos..x.end]
            && StopsAt(CharAt(s, x.end), nested)
    decreases |s| - pos, 0
  {
    hide Expand, ExpandList, WordEnd;
    WordEndIsPlain(s, pos, nested);
    var open := WordEnd(s, pos, nested);
    if CharAt(s, open) != ListStart {
      WordExpands(s, pos, nested, open);
      p := Word(s[pos..open]);
    } else {
      GroupExpands(s, pos, nested, open);
      var list := ExpandList(s, open + 1).value;
      var end := Expand(s, list.end + 1, nested).value.end;
      var items := ExpandedIsPrintedItems(s, open + 1);
      var postscript := ExpandedIsPrinted(s, list.end + 1, nested);
      p := Group(s[pos..open], items, postscript);
      JoinGroup(s, pos, open, list.end, end);
    }
  }

  lemma JoinGroup(s: string, pos: nat, open: nat, close: nat, end: nat)
    requires pos <= open < close < end <= |s|
    requires s[open] == ListStart && s[close] == ListEnd
    ensures s[pos..end] == s[pos..open] + [ListStart] + s[open + 1..close] + [ListEnd] + s[close + 1..end]
  {
  }

  lemma {:induction false} ExpandedIsPrintedItems(s: string, start: nat) returns (items: Items)
    requires start <= |s| && ExpandList(s, start).Ok?
    ensures var x := ExpandList(s, start).value;
            PlainItems(items) && DenoteItems(items) == x.words && PrintItems(items) == s[start..x.end]
    decreases |s| - start, 1
  {
    hide Expand, WordEnd;
    var item := Expand(s, start, true).value;
    var p := ExpandedIsPrinted(s, start, true);
    if CharAt(s, item.end) == ListDelim {
      var rest := ExpandedIsPrintedItems(s, item.end + 1);
      var end := ExpandList(s, item.end + 1).value.end;
      items := More(p, rest);
      assert s[start..end] == s[start..item.end] + [ListDelim] + s[item.end + 1..end];
    } else {
      items := One(p);
    }
  }

  /** The expander accepts exactly the texts of patterns, and returns what they denote. */
  lemma ExpandsIffPattern(s: string)
    ensures ExpandWhole(s).Ok? <==> exists p :: Plain(p, false) && Print(p) == s
    ensures forall p :: Plain(p, false) && Print(p) == s ==> ExpandWhole(s) == Ok(Denote(p))
  {
    if ExpandWhole(s).Ok? {
      var p := ExpandedIsPrinted(s, 0, false);
      assert s[0..|s|] == s;
    }
    forall p | Plain(p, false) && Print(p) == s ensures ExpandWhole(s) == Ok(Denote(p)) {
      PrintThenExpand(p);
    }
  }

  // ---- When does it succeed? ------------------------------------------------------------------

  /** The depth of open braces after one more character; a closing brace outside is literal. */
  function DepthAfter(d: nat, c: char): nat {
    if c == ListStart then d + 1 else if c == ListEnd && d > 0 then d - 1 else d
  }

  /** The depth at the end of `s` when it is `d` at `i`. */
  function Depth(s: string, i: nat, d: nat): nat
    requires i <= |s|
    decreases |s| - i
  {
    if i == |s| then d else Depth(s, i + 1, DepthAfter(d, s[i]))
  }

  predicate NulFree(s: string) { forall i :: 0 <= i < |s| ==> s[i] != Nul }

  /** Inside a list the depth is positive, outside all lists it is zero. */
  predicate DepthFits(d: nat, nested: bool) { if nested then d > 0 else d == 0 }

  lemma {:induction false} WordDepth(s: string, i: nat, nested: bool, d: nat)
    requires i <= |s| && DepthFits(d, nested)
    ensures Depth(s, i, d) == Depth(s, WordEnd(s, i, nested), d)
    decreases |s| - i
  {
    if !Ends(CharAt(s, i), nested) {
      WordDepth(s, i + 1, nested, d);
    }
  }

  /** A success leaves the depth as it was, a failure means that some brace stays open. */
  lemma {:induction false} ExpandDepth(s: string, pos: nat, nested: bool, d: nat)
    requires pos <= |s| && NulFree(s) && DepthFits(d, nested)
    ensures match Expand(s, pos, nested)
            case Ok(x) =>
              && Depth(s, pos, d) == Depth(s, x.end, d)
              && StopsAt(CharAt(s, x.end), nested)
            case Err(_) => Depth(s, pos, d) > 0
    decreases |s| - pos, 0
  {
    hide Expand, ExpandList, WordEnd;
    WordDepth(s, pos, nested, d);
    WordEndIsPlain(s, pos, nested);
    var open := WordEnd(s, pos, nested);
    if CharAt(s, open) == ListStart {
      ListDepth(s, open + 1, d + 1);
      var list := ExpandList(s, open + 1);
      GroupExpands(s, pos, nested, open);
      if list.Ok? {
        ExpandDepth(s, list.value.end + 1, nested, d);
      }
    } else {
      WordExpands(s, pos, nested, open);
    }
  }

  lemma {:induction false} ListDepth(s: string, start: nat, d: nat)
    requires start <= |s| && NulFree(s) && d > 0
    ensures match ExpandList(s, start)
            case Ok(x) => Depth(s, start, d) == Depth(s, x.end, d)
            case Err(_) => Depth(s, start, d) > 0
    decreases |s| - start, 1
  {
    ExpandDepth(s, start, true, d);
    var item := Expand(s, start, true);
    if item.Ok? && CharAt(s, item.value.end) == ListDelim {
      ListDepth(s, item.value.end + 1, d);
    }
  }

  /** A zero inside the string stops the expander before the end. */
  lemma {:induction false} ExpandedIsNulFree(s: string, pos: nat, nested: bool)
    requires pos <= |s| && Expand(s, pos, nested).Ok?
    ensures NulFree(s[pos..Expand(s, pos, nested).value.end])
    decreases |s| - pos, 0
  {
    hide Expand, ExpandList, WordEnd;
    var open := WordEnd(s, pos, nested);
    WordEndIsPlain(s, pos, nested);
    if CharAt(s, open) == ListStart {
      GroupExpands(s, pos, nested, open);
      var close := ExpandList(s, open + 1).value.end;
      ListIsNulFree(s, open + 1);
      ExpandedIsNulFree(s, close + 1, nested);
      JoinNulFree(s, pos, open, close, Expand(s, close + 1, nested).value.end);
    } else {
      WordExpands(s, pos, nested, open);
    }
  }

  lemma JoinNulFree(s: string, pos: nat, open: nat, close: nat, end: nat)
    requires pos <= open < close < end <= |s|
    requires s[open] == ListStart && s[close] == ListEnd
    requires NulFree(s[pos..open]) && NulFree(s[open + 1..close]) && NulFree(s[close + 1..end])
    ensures NulFree(s[pos..end])
  {
    forall i | pos <= i < end ensures s[i] != Nul {
      if i < open {
        assert s[i] == s[pos..open][i - pos];
      } else if open < i < close {
        assert s[i] == s[open + 1..close][i - open - 1];
      } else if close < i {
        assert s[i] == s[close + 1..end][i - close - 1];
      }
    }
  }

  lemma {:induction false} ListIsNulFree(s: string, start: nat)
    requires start <= |s| && ExpandList(s, start).Ok?
    ensures NulFree(s[start..ExpandList(s, start).value.end])
    decreases |s| - start, 1
  {
    var item := Expand(s, start, true).value;
    ExpandedIsNulFree(s, start, true);
    if CharAt(s, item.end) == ListDelim {
      var end := ExpandList(s, item.end + 1).value.end;
      ListIsNulFree(s, item.end + 1);
      assert s[start..end] == s[start..item.end] + [ListDelim] + s[item.end + 1..end];
    }
  }

  /** Expanding succeeds exactly on the zero-free strings in which every opening brace is closed;
      stray closing braces and commas outside all braces are literal. */
  lemma SucceedsIffBalanced(s: string)
    ensures ExpandWhole(s).Ok? <==> NulFree(s) && Depth(s, 0, 0) == 0
  {
    if ExpandWhole(s).Ok? {
      ExpandedIsNulFree(s, 0, false);
      assert s[0..|s|] == s;
    }
    if NulFree(s) {
      ExpandDepth(s, 0, false, 0);
    }
  }

  /** On a zero-free string the expander never stops short of the end. */
  lemma NeverStopsShort(s: string)
    requires NulFree(s)
    ensures ExpandWhole(s).Err? ==> ExpandWhole(s).error.InvalidSymbol?
  {
    ExpandDepth(s, 0, false, 0);
    NoParsingStopped(s, 0, false);
  }

  lemma {:induction false} NoParsingStopped(s: string, pos: nat, nested: bool)
    requires pos <= |s|
    ensures Expand(s, pos, nested).Err? ==> Expand(s, pos, nested).error.InvalidSymbol?
    decreases |s| - pos, 0
  {
    hide Expand, ExpandList, WordEnd;
    var open := WordEnd(s, pos, nested);
    if CharAt(s, open) == ListStart {
      GroupExpands(s, pos, nested, open);
      NoParsingStoppedInList(s, open + 1);
      if ExpandList(s, open + 1).Ok? {
        NoParsingStopped(s, ExpandList(s, open + 1).value.end + 1, nested);
      }
    } else {
      WordExpands(s, pos, nested, open);
    }
  }

  lemma {:induction false} NoParsingStoppedInList(s: string, start: nat)
    requires start <= |s|
    ensures ExpandList(s, start).Err? ==> ExpandList(s, start).error.InvalidSymbol?
    decreases |s| - start, 1
  {
    NoParsingStopped(s, start, true);
    var item := Expand(s, start, true);
    if item.Ok? && CharAt(s, item.value.end) == ListDelim {
      NoParsingStoppedInList(s, item.value.end + 1);
    }
  }

  // ---- Which error, and where -----------------------------------------------------------------

  /** An invalid symbol is always the terminating zero: it is met inside a list, at the end. */
  lemma {:induction false} InvalidSymbolIsEnd(s: string, pos: nat, nested: bool)
    requires pos <= |s| && NulFree(s)
    ensures Expand(s, pos, nested).Err? ==> Expand(s, pos, nested) == Err(InvalidSymbol(|s|))
    decreases |s| - pos, 0
  {
    hide Expand, ExpandList, WordEnd;
    var open := WordEnd(s, pos, nested);
    if CharAt(s, open) == ListStart {
      GroupExpands(s, pos, nested, open);
      InvalidSymbolIsEndOfList(s, open + 1);
      if ExpandList(s, open + 1).Ok? {
        InvalidSymbolIsEnd(s, ExpandList(s, open + 1).value.end + 1, nested);
      }
    } else {
      WordExpands(s, pos, nested, open);
    }
  }

  lemma {:induction false} InvalidSymbolIsEndOfList(s: string, start: nat)
    requires start <= |s| && NulFree(s)
    ensures ExpandList(s, start).Err? ==> ExpandList(s, start) == Err(InvalidSymbol(|s|))
    decreases |s| - start, 1
  {
    hide Expand, WordEnd;
    InvalidSymbolIsEnd(s, start, true);
    ExpandDepth(s, start, true, 1);
    var item := Expand(s, start, true);
    if item.Ok? {
      if CharAt(s, item.value.end) == ListDelim {
        InvalidSymbolIsEndOfList(s, item.value.end + 1);
      } else if CharAt(s, item.value.end) != ListEnd {
        assert item.value.end == |s|;
      }
    }
  }

  /** Behind a zero the expander sees nothing: up to it, it does as on the string that ends there. */
  lemma {:induction false} WordEndsAtNul(s: string, i: nat, nested: bool, n: nat)
    requires i <= n < |s| && s[n] == Nul
    ensures WordEnd(s, i, nested) == WordEnd(s[..n], i, nested)
    decreases n - i
  {
    if i < n {
      WordEndsAtNul(s, i + 1, nested, n);
    }
  }

  lemma {:induction false} ExpandEndsAtNul(s: string, pos: nat, nested: bool, n: nat)
    requires pos <= n < |s| && s[n] == Nul && NulFree(s[..n])
    ensures Expand(s, pos, nested) == Expand(s[..n], pos, nested)
    decreases n - pos, 0
  {
    hide Expand, ExpandList, WordEnd;
    WordEndsAtNul(s, pos, nested, n);
    var open := WordEnd(s, pos, nested);
    assert s[..n][pos..open] == s[pos..open];
    if open < n && s[open] == ListStart {
      GroupExpands(s, pos, nested, open);
      GroupExpands(s[..n], pos, nested, open);
      ListEndsAtNul(s, open + 1, n);
      var list := ExpandList(s, open + 1);
      if list.Ok? {
        ExpandEndsAtNul(s, list.value.end + 1, nested, n);
      }
    } else {
      WordExpands(s, pos, nested, open);
      WordExpands(s[..n], pos, nested, open);
    }
  }

  lemma {:induction false} ListEndsAtNul(s: string, start: nat, n: nat)
    requires start <= n < |s| && s[n] == Nul && NulFree(s[..n])
    ensures ExpandList(s, start) == ExpandList(s[..n], start)
    decreases n - start, 1
  {
    ExpandEndsAtNul(s, start, true, n);
    var item := Expand(s, start, true);
    if item.Ok? {
      var end := item.value.end;
      if end < n && s[end] == ListDelim {
        ListEndsAtNul(s, end + 1, n);
      }
    }
  }

  /** `n` is where the string ends for the expander: at its first zero, or at its length. */
  ghost predicate EndsForExpander(s: string, n: nat) {
    n <= |s| && NulFree(s[..n]) && CharAt(s, n) == Nul
  }

  /** What every string expands to. Up to the zero that ends it, either every opening brace is closed
      or not. If not, the error is an invalid symbol there; and if so, the only other error is to stop
      at a zero short of the length of the string. */
  lemma {:induction false} ErrorsExactly(s: string, n: nat)
    requires EndsForExpander(s, n)
    ensures if Depth(s[..n], 0, 0) != 0 then ExpandWhole(s) == Err(InvalidSymbol(n))
            else if n < |s| then ExpandWhole(s) == Err(ParsingStopped(n))
            else ExpandWhole(s).Ok?
  {
    hide Expand, Depth;
    var t := s[..n];
    if n < |s| {
      ExpandEndsAtNul(s, 0, false, n);
    } else {
      assert t == s;
    }
    SucceedsIffBalanced(t);
    InvalidSymbolIsEnd(t, 0, false);
    ExpandDepth(t, 0, false, 0);
  }

  // ---- How many words -------------------------------------------------------------------------

  lemma {:induction false} CrossSize(preamble: string, list: seq<string>, postscript: seq<string>)
    ensures |Cross(preamble, list, postscript)| == |list| * |postscript|
  {
    if list != [] {
      CrossSize(preamble, list[..|list| - 1], postscript);
      assert |list| * |postscript| == (|list| - 1) * |postscript| + |postscript|;
    }
  }

  /** The cross product word by word: preamble, then the i-th word of the list, then the j-th word of
      the postscript, with the postscript running fastest. */
  lemma {:induction false} CrossAt(preamble: string, list: seq<string>, postscript: seq<string>, i: nat, j: nat)
    requires i < |list| && j < |postscript|
    ensures i * |postscript| + j < |Cross(preamble, list, postscript)|
    ensures Cross(preamble, list, postscript)[i * |postscript| + j] == preamble + list[i] + postscript[j]
    decreases |list|
  {
    var init := list[..|list| - 1];
    CrossSize(preamble, init, postscript);
    if i < |init| {
      CrossAt(preamble, init, postscript, i, j);
    }
  }

  /** Lists add up, concatenation multiplies. */
  function Size(p: Pattern): nat {
    match p
    case Word(_) => 1
    case Group(_, items, postscript) => SizeItems(items) * Size(postscript)
  }

  function SizeItems(items: Items): nat {
    match items
    case One(p) => Size(p)
    case More(p, rest) => Size(p) + SizeItems(rest)
  }

  lemma {:induction false} DenoteSize(p: Pattern)
    ensures |Denote(p)| == Size(p) > 0
    decreases p
  {
    if p.Group? {
      DenoteSizeItems(p.items);
      DenoteSize(p.postscript);
      CrossSize(p.preamble, DenoteItems(p.items), Denote(p.postscript));
    }
  }

  lemma {:induction false} DenoteSizeItems(items: Items)
    ensures |DenoteItems(items)| == SizeItems(items) > 0
    decreases items
  {
    match items
    case One(p) => DenoteSize(p);
    case More(p, rest) => DenoteSize(p); DenoteSizeItems(rest);
  }

  /** A successful expansion is never empty. */
  lemma NeverEmpty(s: string)
    requires ExpandWhole(s).Ok?
    ensures |ExpandWhole(s).value| > 0
  {
    var p := ExpandedIsPrinted(s, 0, false);
    DenoteSize(p);
  }
}
