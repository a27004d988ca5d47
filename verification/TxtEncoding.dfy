/** The encoding of DNS character strings for a parser that splits adjacent quoted strings and
    undoes no escapes. */
module TxtEncoding {
  import opened Outcomes

  const QUOTE := '"'
  const BOUNDARY: string := [QUOTE, QUOTE]

  // ----- the parser on the other side

  /** Where the leftmost pair of adjacent quotes starts. */
  function FirstBoundary(s: string): (at: Option<nat>)
    ensures at.Some? ==> at.value + 2 <= |s|
  {
    if |s| < 2 then None
    else if s[0] == QUOTE && s[1] == QUOTE then Some(0)
    else match FirstBoundary(s[1..]) case None => None case Some(at) => Some(at + 1)
  }

  function Split(s: string): (parts: seq<string>)
    ensures |parts| > 0
    decreases |s|
  {
    match FirstBoundary(s)
    case None => [s]
    case Some(at) => [s[..at]] + Split(s[at + 2..])
  }

  predicate Quoted(value: string) {
    |value| >= 2 && value[0] == QUOTE && value[|value| - 1] == QUOTE
  }

  /** A value in quotes is stripped of them and split; any other value is one string. */
  function DecodeTxt(value: string): (strings: seq<string>)
    ensures |strings| > 0
  {
    if Quoted(value) then Split(value[1..|value| - 1]) else [value]
  }

  // ----- the encoder

  predicate HasBoundary(text: string) {
    exists i :: 0 <= i < |text| - 1 && text[i] == QUOTE && text[i + 1] == QUOTE
  }

  predicate EndsInQuote(text: string) {
    |text| > 0 && text[|text| - 1] == QUOTE
  }

  /** The parser would misread this string among quoted ones. */
  predicate Awkward(text: string) {
    HasBoundary(text) || EndsInQuote(text)
  }

  predicate StartsWithQuote(text: string) {
    |text| > 0 && text[0] == QUOTE
  }

  function Join(strings: seq<string>): string {
    if strings == [] then ""
    else Join(strings[..|strings| - 1]) + [QUOTE] + strings[|strings| - 1] + [QUOTE]
  }

  function EncodeTxt(strings: seq<string>): Option<string> {
    if forall i :: 0 <= i < |strings| ==> !Awkward(strings[i]) then Some(Join(strings))
    else if |strings| == 1 && !(StartsWithQuote(strings[0]) && EndsInQuote(strings[0])) then Some(strings[0])
    else None
  }

  method ContainsBoundary(text: string) returns (found: bool)
    ensures found <==> HasBoundary(text)
  {
    var i := 0;
    while i + 1 < |text|
      invariant 0 <= i && (i + 1 <= |text| || i == 0)
      invariant forall k :: 0 <= k < i ==> !(text[k] == QUOTE && text[k + 1] == QUOTE)
    {
      if text[i] == QUOTE && text[i + 1] == QUOTE { return true; }
      i := i + 1;
    }
    found := false;
  }

  method BuildTxt(strings: seq<string>) returns (data: Option<string>)
    ensures data == EncodeTxt(strings)
  {
    var built := "";
    for i := 0 to |strings|
      invariant forall k :: 0 <= k < i ==> !Awkward(strings[k])
      invariant built == Join(strings[..i])
    {
      var text := strings[i];
      var boundary := ContainsBoundary(text);
      if boundary || EndsInQuote(text) {
        assert Awkward(strings[i]);
        if |strings| == 1 && !(StartsWithQuote(text) && EndsInQuote(text)) { return Some(text); }
        return None;
      }
      assert strings[..i + 1][..i] == strings[..i];
      built := built + [QUOTE] + text + [QUOTE];
    }
    assert strings[..|strings|] == strings;
    data := Some(built);
  }

  // ----- the round trip

  lemma {:induction false} BoundaryAfter(text: string, rest: string)
    requires !Awkward(text)
    ensures FirstBoundary(text + BOUNDARY + rest) == Some(|text|)
    decreases |text|
  {
    var s := text + BOUNDARY + rest;
    if text != "" {
      assert s[1..] == text[1..] + BOUNDARY + rest;
      assert s[0] == text[0] && (|text| > 1 ==> s[1] == text[1]);
      TailNotAwkward(text);
      BoundaryAfter(text[1..], rest);
    }
  }

  lemma TailNotAwkward(text: string)
    requires text != "" && !Awkward(text)
    ensures !Awkward(text[1..])
  {
    assert forall i :: 0 <= i < |text| - 1 ==> text[1..][i] == text[i + 1];
    assert forall i :: 0 <= i < |text| - 1 ==> !(text[i] == QUOTE && text[i + 1] == QUOTE);
  }

  lemma {:induction false} NoBoundary(text: string)
    ensures FirstBoundary(text) == None <==> !HasBoundary(text)
    decreases |text|
  {
    if |text| >= 2 {
      NoBoundary(text[1..]);
      if HasBoundary(text) {
        var i :| 0 <= i < |text| - 1 && text[i] == QUOTE && text[i + 1] == QUOTE;
        if i > 0 {
          assert text[1..][i - 1] == QUOTE && text[1..][i] == QUOTE;
        }
      }
      if HasBoundary(text[1..]) {
        var i :| 0 <= i < |text| - 2 && text[1..][i] == QUOTE && text[1..][i + 1] == QUOTE;
        assert text[i + 1] == QUOTE && text[i + 2] == QUOTE;
      }
    }
  }

  /** The inside of the quoted form: the strings with a boundary between neighbours. */
  function Inside(strings: seq<string>): string
    requires strings != []
  {
    if |strings| == 1 then strings[0] else strings[0] + BOUNDARY + Inside(strings[1..])
  }

  lemma {:induction false} InsideAppend(strings: seq<string>, last: string)
    requires strings != []
    ensures Inside(strings + [last]) == Inside(strings) + BOUNDARY + last
    decreases |strings|
  {
    var longer := strings + [last];
    if |strings| == 1 {
      assert longer[1..] == [last];
    } else {
      assert longer[1..] == strings[1..] + [last];
      InsideAppend(strings[1..], last);
      assert Inside(longer) == strings[0] + BOUNDARY + (Inside(strings[1..]) + BOUNDARY + last);
    }
  }

  lemma {:induction false} JoinIsQuotedInside(strings: seq<string>)
    requires strings != []
    ensures Join(strings) == [QUOTE] + Inside(strings) + [QUOTE]
    decreases |strings|
  {
    var init, last := strings[..|strings| - 1], strings[|strings| - 1];
    assert strings == init + [last];
    if init == [] {
      assert Join(init) == "";
    } else {
      JoinIsQuotedInside(init);
      InsideAppend(init, last);
    }
  }

  lemma {:induction false} SplitInside(strings: seq<string>)
    requires strings != []
    requires forall i :: 0 <= i < |strings| ==> !HasBoundary(strings[i])
    requires forall i :: 0 <= i < |strings| - 1 ==> !EndsInQuote(strings[i])
    ensures Split(Inside(strings)) == strings
    decreases |strings|
  {
    if |strings| == 1 {
      NoBoundary(strings[0]);
    } else {
      var text, rest := strings[0], Inside(strings[1..]);
      BoundaryAfter(text, rest);
      var s := text + BOUNDARY + rest;
      assert s[..|text|] == text && s[|text| + 2..] == rest;
      SplitInside(strings[1..]);
    }
  }

  /** Whatever the encoder accepts, the parser reads back. */
  lemma TxtRoundTrip(strings: seq<string>)
    requires strings != [] && EncodeTxt(strings).Some?
    ensures DecodeTxt(EncodeTxt(strings).value) == strings
  {
    if forall i :: 0 <= i < |strings| ==> !Awkward(strings[i]) {
      JoinIsQuotedInside(strings);
      SplitInside(strings);
      var value := Join(strings);
      assert value[1..|value| - 1] == Inside(strings);
    } else {
      assert strings == [strings[0]];
    }
  }

  /** The form of what is accepted: in quotes, unless it is a single string that the parser would
      misread among quoted ones. */
  lemma QuotedUnlessAwkward(strings: seq<string>)
    requires strings != [] && EncodeTxt(strings).Some?
    ensures Quoted(EncodeTxt(strings).value) <==> forall s :: s in strings ==> !EndsInQuote(s) && !HasBoundary(s)
  {
    hide HasBoundary;
    if forall i :: 0 <= i < |strings| ==> !Awkward(strings[i]) {
      JoinIsQuotedInside(strings);
    } else {
      assert strings == [strings[0]];
    }
  }

  /** Only the empty list is encoded as nothing. */
  lemma OnlyNothingIsEmpty(strings: seq<string>)
    ensures EncodeTxt(strings) == Some("") <==> strings == []
  {
    if strings != [] && forall i :: 0 <= i < |strings| ==> !Awkward(strings[i]) {
      JoinIsQuotedInside(strings);
    }
  }

  // ----- what the encoder refuses

  /** A string without boundary that a boundary follows at its end does not end in a quote. */
  lemma {:induction false} SplitParts(s: string)
    ensures forall i :: 0 <= i < |Split(s)| ==> !HasBoundary(Split(s)[i])
    ensures forall i :: 0 <= i < |Split(s)| - 1 ==> !EndsInQuote(Split(s)[i])
    decreases |s|
  {
    NoBoundary(s);
    if FirstBoundary(s).Some? {
      var at := FirstBoundary(s).value;
      LeftmostPart(s);
      SplitParts(s[at + 2..]);
      assert Split(s)[0] == s[..at] && Split(s)[1..] == Split(s[at + 2..]);
      forall i | 1 <= i < |Split(s)| ensures Split(s)[i] == Split(s[at + 2..])[i - 1] {
      }
    }
  }

  lemma {:induction false} LeftmostPart(s: string)
    requires FirstBoundary(s).Some?
    ensures !Awkward(s[..FirstBoundary(s).value])
    decreases |s|
  {
    var at := FirstBoundary(s).value;
    if at > 0 {
      var tail := s[1..][..at - 1];
      LeftmostPart(s[1..]);
      BoundaryIsThere(s[1..]);
      var part := s[..at];
      assert part[1..] == tail;
      assert forall i :: 0 < i < at ==> part[i] == tail[i - 1];
      assert forall i :: 0 <= i && i + 2 < at ==> !(tail[i] == QUOTE && tail[i + 1] == QUOTE);
      assert at == 1 ==> s[1] == QUOTE;
    }
  }

  lemma {:induction false} BoundaryIsThere(s: string)
    requires FirstBoundary(s).Some?
    ensures var at := FirstBoundary(s).value; s[at] == QUOTE && s[at + 1] == QUOTE
    decreases |s|
  {
    if FirstBoundary(s) != Some(0) {
      BoundaryIsThere(s[1..]);
    }
  }

  /** Of two strings or more, a value stands for those that the encoder takes and for some whose
      last one ends in a quote. */
  lemma SeveralAccepted(strings: seq<string>)
    requires |strings| >= 2
    ensures EncodeTxt(strings).Some? <==>
      (exists value :: DecodeTxt(value) == strings) && !EndsInQuote(strings[|strings| - 1])
  {
    if EncodeTxt(strings).Some? {
      TxtRoundTrip(strings);
      assert DecodeTxt(EncodeTxt(strings).value) == strings;
      assert !Awkward(strings[|strings| - 1]);
    }
    if value :| DecodeTxt(value) == strings {
      var inner := value[1..|value| - 1];
      SplitParts(inner);
      var parts := Split(inner);
      assert parts == strings;
      assert forall i :: 0 <= i < |strings| ==> !HasBoundary(strings[i]);
      assert forall i :: 0 <= i < |strings| - 1 ==> !EndsInQuote(strings[i]);
      if !EndsInQuote(strings[|strings| - 1]) {
        assert forall i :: 0 <= i < |strings| ==> !Awkward(strings[i]);
      }
    }
  }

  /** The last string ends in a quote, and is not alone or starts with one too. */
  predicate ClosesInQuote(strings: seq<string>)
    requires strings != []
  {
    var last := strings[|strings| - 1];
    EndsInQuote(last) && (|strings| >= 2 || StartsWithQuote(last))
  }

  /** The encoder accepts exactly the lists that some value stands for, except those that close
      in a quote. */
  lemma AcceptedIsRepresentable(strings: seq<string>)
    requires strings != []
    ensures EncodeTxt(strings).Some? <==> (exists value :: DecodeTxt(value) == strings) && !ClosesInQuote(strings)
  {
    if |strings| >= 2 {
      SeveralAccepted(strings);
    } else if EncodeTxt(strings).Some? {
      TxtRoundTrip(strings);
      assert DecodeTxt(EncodeTxt(strings).value) == strings;
    }
  }

  /** What it loses by that: every list that closes in a quote, without a boundary in any string
      and with no quote at the end of an earlier one, is refused although a value stands for it. */
  lemma RefusedThoughRepresentable(strings: seq<string>)
    requires strings != [] && ClosesInQuote(strings)
    requires forall i :: 0 <= i < |strings| ==> !HasBoundary(strings[i])
    requires forall i :: 0 <= i < |strings| - 1 ==> !EndsInQuote(strings[i])
    ensures EncodeTxt(strings) == None && DecodeTxt([QUOTE] + Inside(strings) + [QUOTE]) == strings
  {
    hide Split, Inside, HasBoundary, Join;
    var inside := Inside(strings);
    var value := [QUOTE] + inside + [QUOTE];
    assert value[0] == QUOTE && value[|value| - 1] == QUOTE && value[1..|value| - 1] == inside;
    SplitInside(strings);
    assert Awkward(strings[|strings| - 1]);
  }

  /** One string in quotes, one quote alone, and a last string of two. */
  lemma RefusedExamples()
    ensures EncodeTxt(["\"a\""]) == None && DecodeTxt("\"\"a\"\"") == ["\"a\""]
    ensures EncodeTxt(["\""]) == None && DecodeTxt("\"\"\"") == ["\""]
    ensures EncodeTxt(["a", "b\""]) == None && DecodeTxt("\"a\"\"b\"\"") == ["a", "b\""]
  {
    hide EncodeTxt, DecodeTxt;
    assert "\"\"a\"\"" == [QUOTE] + "\"a\"" + [QUOTE] && "\"\"\"" == [QUOTE] + "\"" + [QUOTE];
    assert "\"a\"\"b\"\"" == [QUOTE] + ("a" + BOUNDARY + "b\"") + [QUOTE];
    assert ["a", "b\""][1..] == ["b\""];
    RefusedThoughRepresentable(["\"a\""]);
    RefusedThoughRepresentable(["\""]);
    RefusedThoughRepresentable(["a", "b\""]);
  }
}
