/** Records and the data strings that answers carry for them. Names are ASCII strings compared
    without case. */
module DnsData {
  import opened Outcomes
  import opened Decimal
  import opened TxtEncoding

  const TYPE_NS := 2
  const TYPE_CNAME := 5
  const TYPE_PTR := 12
  const TYPE_MX := 15
  const TYPE_TXT := 16
  const TYPE_SRV := 33
  const CLASS_INET := 1

  datatype Body =
    | Txt(strings: seq<string>)
    | Cname(target: string)
    | Ptr(target: string)
    | Mx(preference: nat, target: string)
    | Ns(target: string)
    | Srv(priority: nat, weight: nat, port: nat, target: string)
    | Other(kind: nat)

  datatype Resource = Resource(name: string, rclass: nat, ttl: nat, body: Body)

  datatype Answer = Answer(name: string, kind: nat, ttl: nat, data: string)

  datatype Failure = CnameLoop | ChainLimit | NotImplemented | UnsupportedBody | ExchangeFailed(reason: string)

  function Kind(body: Body): nat {
    match body
    case Txt(_) => TYPE_TXT
    case Cname(_) => TYPE_CNAME
    case Ptr(_) => TYPE_PTR
    case Mx(_, _) => TYPE_MX
    case Ns(_) => TYPE_NS
    case Srv(_, _, _, _) => TYPE_SRV
    case Other(kind) => kind
  }

  function Lower(c: char): char {
    if 'A' <= c <= 'Z' then c - 'A' + 'a' else c
  }

  function Fold(name: string): (key: string)
    ensures |key| == |name|
  {
    seq(|name|, i requires 0 <= i < |name| => Lower(name[i]))
  }

  /** Two characters that are equal, or the two cases of one ASCII letter. */
  predicate SameLetter(c: char, d: char) {
    c == d || ('A' <= c <= 'Z' && d as int == c as int + 32) || ('A' <= d <= 'Z' && c as int == d as int + 32)
  }

  predicate SameLetters(a: string, b: string) {
    |a| == |b| && forall i :: 0 <= i < |a| ==> SameLetter(a[i], b[i])
  }

  /** Names are the same exactly when they are spelled with the same letters. */
  lemma FoldExactly(a: string, b: string)
    ensures Fold(a) == Fold(b) <==> SameLetters(a, b)
  {
    if |a| == |b| {
      forall i | 0 <= i < |a| ensures Fold(a)[i] == Fold(b)[i] <==> SameLetter(a[i], b[i]) {
        LowerExactly(a[i], b[i]);
      }
    }
  }

  lemma LowerExactly(c: char, d: char)
    ensures Lower(c) == Lower(d) <==> SameLetter(c, d)
  {
  }

  function TrimDot(name: string): string {
    if |name| > 0 && name[|name| - 1] == '.' then name[..|name| - 1] else name
  }

  function ServiceTarget(target: string): string {
    if target != "." then TrimDot(target) else target
  }

  function RecordData(body: Body): Result<string, Failure> {
    match body
    case Txt(strings) =>
      (match EncodeTxt(strings) case Some(data) => Ok(data) case None => Err(NotImplemented))
    case Cname(target) => Ok(target)
    case Ptr(target) => Ok(target)
    case Mx(preference, target) => Ok(FormatUint(preference) + " " + target)
    case Ns(target) => Ok(target)
    case Srv(priority, weight, port, target) =>
      Ok(FormatUint(priority) + " " + FormatUint(weight) + " " + FormatUint(port) + " "
         + ServiceTarget(target))
    case Other(_) => Err(UnsupportedBody)
  }

  const ENCODING := {NotImplemented, UnsupportedBody}

  lemma EncodingFailures(body: Body)
    ensures RecordData(body).Err? ==> RecordData(body).error in ENCODING
  {
  }

  // ----- what the data tells

  /** Two service targets that the encoding does not tell apart: one is the other with its dot. */
  predicate DotApart(target: string, dotted: string) {
    dotted == target + "." && target != "" && (target == "." || target[|target| - 1] != '.')
  }

  predicate SameService(a: Body, b: Body) {
    && a.Srv? && b.Srv?
    && a.priority == b.priority && a.weight == b.weight && a.port == b.port
    && (DotApart(a.target, b.target) || DotApart(b.target, a.target))
  }

  lemma ServiceTargets(a: string, b: string)
    ensures ServiceTarget(a) == ServiceTarget(b) <==> a == b || DotApart(a, b) || DotApart(b, a)
  {
    if ServiceTarget(a) == ServiceTarget(b) && a != b {
      assert a == ServiceTarget(a) || a == ServiceTarget(a) + ".";
      assert b == ServiceTarget(b) || b == ServiceTarget(b) + ".";
    }
    if DotApart(a, b) { assert TrimDot(b) == a; }
    if DotApart(b, a) { assert TrimDot(a) == b; }
  }

  lemma ServiceData(a: Body, b: Body)
    requires a.Srv? && b.Srv?
    ensures RecordData(a) == RecordData(b) <==> a == b || SameService(a, b)
  {
    hide FormatUint, ServiceTarget, DotApart;
    ServiceTargets(a.target, b.target);
    var x, y := ServiceTarget(a.target), ServiceTarget(b.target);
    var p, q := FormatUint(a.port) + " " + x, FormatUint(b.port) + " " + y;
    var v, w := FormatUint(a.weight) + " " + p, FormatUint(b.weight) + " " + q;
    SrvData(a, FormatUint(a.priority) + " " + v);
    SrvData(b, FormatUint(b.priority) + " " + w);
    if RecordData(a) == RecordData(b) {
      NumberThenMark(a.priority, v, b.priority, w, ' ');
      NumberThenMark(a.weight, p, b.weight, q, ' ');
      NumberThenMark(a.port, x, b.port, y, ' ');
    }
  }

  lemma SrvData(a: Body, data: string)
    requires a.Srv?
    requires data == FormatUint(a.priority) + " " + (FormatUint(a.weight) + " "
                     + (FormatUint(a.port) + " " + ServiceTarget(a.target)))
    ensures RecordData(a) == Ok(data)
  {
    hide FormatUint, ServiceTarget;
    var p, w, o, t := FormatUint(a.priority), FormatUint(a.weight), FormatUint(a.port), ServiceTarget(a.target);
    assert p + " " + w + " " + o + " " + t == p + " " + (w + " " + (o + " " + t));
  }

  lemma ExchangeData(a: Body, b: Body)
    requires a.Mx? && b.Mx? && RecordData(a) == RecordData(b)
    ensures a == b
  {
    hide FormatUint;
    NumberThenMark(a.preference, a.target, b.preference, b.target, ' ');
  }

  lemma TextData(a: Body, b: Body)
    requires a.Txt? && b.Txt? && RecordData(a) == RecordData(b) && RecordData(a).Ok?
    ensures a == b
  {
    if a.strings != [] && b.strings != [] {
      TxtRoundTrip(a.strings);
      TxtRoundTrip(b.strings);
    } else {
      OnlyNothingIsEmpty(a.strings);
      OnlyNothingIsEmpty(b.strings);
    }
  }

  /** The text gives the numbers in decimal, a space after each, and then the rest. */
  predicate Spells(data: string, numbers: seq<nat>, rest: string) {
    if numbers == [] then data == rest
    else exists i :: 0 < i < |data| && data[i] == ' ' && SpellsNumber(data[..i], numbers[0])
                     && Spells(data[i + 1..], numbers[1..], rest)
  }

  predicate SpellsNumber(digits: string, n: nat) {
    && (forall c :: c in digits ==> '0' <= c <= '9')
    && digits != "" && DigitsValue(digits) == n && (digits[0] == '0' ==> digits == "0")
  }

  lemma OneMore(n: nat, data: string, numbers: seq<nat>, rest: string)
    requires Spells(data, numbers, rest)
    ensures Spells(FormatUint(n) + " " + data, [n] + numbers, rest)
  {
    hide FormatUint;
    var digits, t := FormatUint(n), FormatUint(n) + " " + data;
    ValueOfFormat(n);
    NoLeadingZero(n);
    ZeroIsShort(n);
    assert t[..|digits|] == digits && t[|digits| + 1..] == data && ([n] + numbers)[1..] == numbers;
    assert SpellsNumber(t[..|digits|], n) && Spells(t[|digits| + 1..], numbers, rest);
  }

  lemma ZeroIsShort(n: nat)
    ensures |FormatUint(n)| == 1 && FormatUint(n)[0] == '0' ==> FormatUint(n) == "0"
  {
  }

  /** What the data of each type says: the target as it is, the preference and the target, or
      priority, weight, port and the target without its closing dot. */
  lemma DataSpellsTheRecord(body: Body)
    ensures body.Cname? || body.Ptr? || body.Ns? ==> RecordData(body) == Ok(body.target)
    ensures body.Mx? ==> RecordData(body).Ok? && Spells(RecordData(body).value, [body.preference], body.target)
    ensures body.Srv? ==>
      exists target :: RecordData(body).Ok?
        && Spells(RecordData(body).value, [body.priority, body.weight, body.port], target)
        && body.target == if body.target != "." && EndsInDot(body.target) then target + "." else target
    ensures body.Txt? ==> (RecordData(body).Ok? ==>
      if body.strings == [] then RecordData(body).value == "" else DecodeTxt(RecordData(body).value) == body.strings)
    ensures body.Other? ==> RecordData(body) == Err(UnsupportedBody)
  {
    hide FormatUint, EncodeTxt, DecodeTxt, Spells;
    match body
    case Mx(preference, target) =>
      SpellsNothing(target);
      OneMore(preference, target, [], target);
      assert [preference] + [] == [preference];
    case Srv(priority, weight, port, _) =>
      var t := ServiceTarget(body.target);
      var p := FormatUint(port) + " " + t;
      var w := FormatUint(weight) + " " + p;
      SpellsNothing(t);
      assert [port] + [] == [port] && [weight] + [port] == [weight, port];
      assert [priority] + [weight, port] == [priority, weight, port];
      OneMore(port, t, [], t);
      OneMore(weight, p, [port], t);
      OneMore(priority, w, [weight, port], t);
      SrvData(body, FormatUint(priority) + " " + w);
    case Txt(strings) =>
      OnlyNothingIsEmpty(strings);
      if strings != [] && RecordData(body).Ok? { TxtRoundTrip(strings); }
    case _ =>
  }

  predicate EndsInDot(name: string) {
    name != "" && name[|name| - 1] == '.'
  }

  lemma SpellsNothing(rest: string)
    ensures Spells(rest, [], rest)
  {
  }

  /** The data tells records of one type apart, but for service targets that differ by their
      closing dot only. */
  lemma DataTellsRecordsApart(a: Body, b: Body)
    requires Kind(a) == Kind(b) && RecordData(a).Ok? && RecordData(b).Ok?
    ensures RecordData(a) == RecordData(b) <==> a == b || SameService(a, b)
  {
    hide EncodeTxt, FormatUint, TrimDot, DotApart;
    match a
    case Txt(_) => if RecordData(a) == RecordData(b) { TextData(a, b); }
    case Mx(_, _) => if RecordData(a) == RecordData(b) { ExchangeData(a, b); }
    case Srv(_, _, _, _) => ServiceData(a, b);
    case _ =>
  }
}
