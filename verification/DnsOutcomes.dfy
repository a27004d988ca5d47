/** What follows from how a query comes to its result. */
module DnsOutcomes {
  import opened Outcomes
  import opened Sequences
  import opened Decimal
  import opened DnsData
  import opened DnsRecords

  lemma NoAliasOfAliases(packet: seq<Resource>, key: string)
    ensures LastAlias(packet, key, TYPE_CNAME) == None
  {
    LastAliasFacts(packet, key, TYPE_CNAME);
  }

  lemma AliasQueryAsksOnce(server: Server, asked: seq<string>, names: seq<string>)
    requires Chain(server, asked, TYPE_CNAME, names)
    ensures |names| <= 1
  {
    hide Linked;
    if |names| > 1 {
      NothingLinks(server, asked, names[0], names[1]);
      assert false;
    }
  }

  lemma NothingLinks(server: Server, asked: seq<string>, from: string, to: string)
    ensures !Linked(server, asked, TYPE_CNAME, from, to)
  {
  }

  /** A query for aliases follows none: it asks for the queried name only and answers with the
      name's own aliases, the data of each being its target, or without any when there are none;
      it fails only with the exchange or with a record that is no alias but claims the type. */
  lemma AliasQueryReturnsTargets(server: Server, queried: string, zone: Zone, names: seq<string>, asked: seq<string>,
                                 r: Result<seq<Answer>, Failure>)
    requires CameAbout(server, queried, TYPE_CNAME, zone, names, asked, r)
    ensures names == asked == [queried]
    ensures server(queried).Err? ==> r == Err(server(queried).error)
    ensures server(queried).Ok? ==>
      var own := Relevant(server(queried).value, Fold(queried), TYPE_CNAME);
      && (r.Err? ==> r == Err(UnsupportedBody) && exists record :: record in own && record.body.Other?)
      && (r.Ok? ==>
            && |r.value| == |own|
            && forall i :: 0 <= i < |own| ==>
                 own[i].body.Cname? && r.value[i] == Answer(own[i].name, TYPE_CNAME, own[i].ttl, own[i].body.target))
  {
    hide Fold, Relevant, LastAlias, Chain, Faithful, Agrees;
    AliasQueryAsksOnce(server, asked, names);
    assert names == asked == [queried];
    if server(queried).Ok? {
      var packet := server(queried).value;
      NoAliasOfAliases(packet, Fold(queried));
      var own := Relevant(packet, Fold(queried), TYPE_CNAME);
      assert forall i :: 0 <= i < |own| ==> own[i] in own;
      assert Reports(own, TYPE_CNAME, r);
    }
  }

  /** The results of two queries whose servers are faithful to one zone, however they cut its
      chains into packets, are the same records in some order, or the same failure of the chain,
      or both fail to encode a record. */
  ghost predicate SameOutcome(r: Result<seq<Answer>, Failure>, s: Result<seq<Answer>, Failure>) {
    match (r, s)
    case (Ok(a), Ok(b)) =>
      && multiset(Data(a)) == multiset(Data(b))
      && forall x, y :: x in a && y in b ==> Fold(x.name) == Fold(y.name) && x.kind == y.kind
    case (Err(d), Err(e)) => d == e || (d in ENCODING && e in ENCODING)
    case _ => false
  }

  function Data(answers: seq<Answer>): seq<string> {
    seq(|answers|, i requires 0 <= i < |answers| => answers[i].data)
  }

  /** What the encoder makes of each body. */
  function Encoded(bodies: seq<Body>): (data: seq<Result<string, Failure>>)
    ensures |data| == |bodies|
  {
    seq(|bodies|, i requires 0 <= i < |bodies| => RecordData(bodies[i]))
  }

  lemma EncodedWithout(bodies: seq<Body>, i: nat)
    requires i < |bodies|
    ensures multiset(Encoded(bodies)) == multiset{RecordData(bodies[i])} + multiset(Encoded(Without(bodies, i)))
  {
    hide RecordData;
    WithoutOne(Encoded(bodies), i);
    assert Without(Encoded(bodies), i) == Encoded(Without(bodies, i));
  }

  lemma {:induction false} EncodedOfPermutation(a: seq<Body>, b: seq<Body>)
    requires multiset(a) == multiset(b)
    ensures multiset(Encoded(a)) == multiset(Encoded(b))
    decreases |a|
  {
    hide RecordData, Encoded, Without;
    if a == [] {
      assert |multiset(b)| == 0;
      assert a == b;
    } else {
      assert a[0] in multiset(a);
      var i := IndexIn(a[0], b);
      WithoutOne(a, 0);
      WithoutOne(b, i);
      EncodedOfPermutation(Without(a, 0), Without(b, i));
      EncodedWithout(a, 0);
      EncodedWithout(b, i);
    }
  }

  lemma {:induction false} SuccessesOf(answers: seq<Answer>, data: seq<Result<string, Failure>>)
    requires |answers| == |data| && forall i :: 0 <= i < |answers| ==> data[i] == Ok(answers[i].data)
    ensures forall d :: multiset(Data(answers))[d] == multiset(data)[Ok(d)]
    decreases |answers|
  {
    if answers != [] {
      var init, rest := answers[..|answers| - 1], data[..|data| - 1];
      SuccessesOf(init, rest);
      assert Data(answers) == Data(init) + [answers[|answers| - 1].data];
      assert data == rest + [data[|data| - 1]];
    } else {
      assert Data(answers) == [] && data == [];
    }
  }

  lemma EncodesPermutation(bodies: seq<Body>, others: seq<Body>, key: string, kind: nat,
                           r: Result<seq<Answer>, Failure>, s: Result<seq<Answer>, Failure>)
    requires multiset(bodies) == multiset(others)
    requires Encodes(bodies, key, kind, r) && Encodes(others, key, kind, s)
    ensures SameOutcome(r, s)
  {
    hide RecordData, Fold, ENCODING, Encoded, Data;
    EncodedOfPermutation(bodies, others);
    if r.Ok? && s.Ok? {
      EncodesAll(bodies, key, kind, r);
      EncodesAll(others, key, kind, s);
      SuccessesOf(r.value, Encoded(bodies));
      SuccessesOf(s.value, Encoded(others));
      assert forall d :: multiset(Data(r.value))[d] == multiset(Data(s.value))[d];
    } else {
      EncodesFailure(bodies, key, kind, r);
      EncodesFailure(others, key, kind, s);
      assert forall d :: d in Encoded(bodies) <==> d in multiset(Encoded(others));
      assert forall d :: d in multiset(Encoded(others)) <==> d in Encoded(others);
    }
  }

  lemma EncodesAll(bodies: seq<Body>, key: string, kind: nat, r: Result<seq<Answer>, Failure>)
    requires Encodes(bodies, key, kind, r) && r.Ok?
    ensures |r.value| == |Encoded(bodies)|
    ensures forall i :: 0 <= i < |r.value| ==> Encoded(bodies)[i] == Ok(r.value[i].data)
  {
  }

  /** A failure is that of some body; a success leaves none. */
  lemma EncodesFailure(bodies: seq<Body>, key: string, kind: nat, r: Result<seq<Answer>, Failure>)
    requires Encodes(bodies, key, kind, r)
    ensures r.Ok? ==> forall d :: d in Encoded(bodies) ==> d.Ok?
    ensures r.Err? ==> Err(r.error) in Encoded(bodies) && r.error in ENCODING
  {
    hide RecordData, Fold, ENCODING;
    if r.Err? {
      var i :| 0 <= i < |bodies| && RecordData(bodies[i]) == Err(r.error);
      assert Encoded(bodies)[i] == Err(r.error);
      EncodingFailures(bodies[i]);
    } else {
      EncodesAll(bodies, key, kind, r);
    }
  }

  lemma OneResolution(resolution: Resolution, kind: nat, r: Result<seq<Answer>, Failure>,
                      s: Result<seq<Answer>, Failure>)
    requires Agrees(r, resolution, kind) && Agrees(s, resolution, kind)
    ensures SameOutcome(r, s)
  {
    hide Encodes, Data, ENCODING;
    if resolution.Found? {
      var bodies :| multiset(bodies) == resolution.records && Encodes(bodies, resolution.key, kind, r);
      var others :| multiset(others) == resolution.records && Encodes(others, resolution.key, kind, s);
      EncodesPermutation(bodies, others, resolution.key, kind, r, s);
    }
  }

  /** Two servers that are faithful to one zone give the same outcome, however each cuts the
      chain into packets, unless an exchange fails. */
  lemma CutDoesNotMatter(queried: string, kind: nat, zone: Zone,
                         server: Server, names: seq<string>, asked: seq<string>, r: Result<seq<Answer>, Failure>,
                         other: Server, visited: seq<string>, requested: seq<string>, s: Result<seq<Answer>, Failure>)
    requires Faithful(zone, server, kind) && CameAbout(server, queried, kind, zone, names, asked, r)
    requires Faithful(zone, other, kind) && CameAbout(other, queried, kind, zone, visited, requested, s)
    requires server(asked[|asked| - 1]).Ok? && other(requested[|requested| - 1]).Ok?
    ensures SameOutcome(r, s)
  {
    hide Faithful, Agrees, Resolve, SameOutcome, Chain, AskedOnce, Ends;
    OneResolution(Resolve(zone, Fold(queried), {}), kind, r, s);
  }

  // ----- spelling

  /** The same record under another spelling of its owner or, where it is followed, of its target. */
  predicate SameRecord(r: Resource, s: Resource, kind: nat) {
    && r.rclass == s.rclass && r.ttl == s.ttl && SameLetters(r.name, s.name)
    && (r.body == s.body || (kind != 5 && r.body.Cname? && s.body.Cname? && SameLetters(r.body.target, s.body.target)))
  }

  predicate SamePacket(packet: seq<Resource>, other: seq<Resource>, kind: nat) {
    |packet| == |other| && forall i :: 0 <= i < |packet| ==> SameRecord(packet[i], other[i], kind)
  }

  /** The servers answer names of the same letters with the same records. */
  ghost predicate SameServer(server: Server, other: Server, kind: nat) {
    forall a, b :: SameLetters(a, b) ==>
      match (server(a), other(b))
      case (Ok(packet), Ok(spelled)) => SamePacket(packet, spelled, kind)
      case (Err(d), Err(e)) => d == e
      case _ => false
  }

  predicate SameAnswers(r: Result<seq<Answer>, Failure>, s: Result<seq<Answer>, Failure>) {
    match (r, s)
    case (Ok(a), Ok(b)) =>
      |a| == |b| && forall i :: 0 <= i < |a| ==>
        SameLetters(a[i].name, b[i].name) && a[i].kind == b[i].kind && a[i].ttl == b[i].ttl && a[i].data == b[i].data
    case (Err(d), Err(e)) => d == e
    case _ => false
  }

  lemma SameConcern(r: Resource, s: Resource, key: string, kind: nat)
    requires SameRecord(r, s, kind)
    ensures Concerns(r, key) == Concerns(s, key) && Kind(r.body) == Kind(s.body)
    ensures IsAlias(r, key, kind) == IsAlias(s, key, kind) && Fold(r.name) == Fold(s.name)
  {
    hide Fold, SameLetters;
    FoldExactly(r.name, s.name);
  }

  lemma {:induction false} SameRelevant(packet: seq<Resource>, other: seq<Resource>, key: string, kind: nat)
    requires SamePacket(packet, other, kind)
    ensures SamePacket(Relevant(packet, key, kind), Relevant(other, key, kind), kind)
    decreases |packet|
  {
    hide Fold, Kind, SameRecord, Concerns, IsAlias;
    if packet != [] {
      var n := |packet| - 1;
      SameRelevant(packet[..n], other[..n], key, kind);
      SameConcern(packet[n], other[n], key, kind);
    }
  }

  lemma {:induction false} SameAlias(packet: seq<Resource>, other: seq<Resource>, key: string, kind: nat)
    requires SamePacket(packet, other, kind)
    ensures LastAlias(packet, key, kind).Some? <==> LastAlias(other, key, kind).Some?
    ensures LastAlias(packet, key, kind).Some? ==>
      SameLetters(LastAlias(packet, key, kind).value, LastAlias(other, key, kind).value)
    decreases |packet|
  {
    hide Fold, Kind, SameRecord, Concerns, SameLetters;
    if packet != [] {
      var n := |packet| - 1;
      SameConcern(packet[n], other[n], key, kind);
      if packet[n].body.Cname? { SameTarget(packet[n], other[n], kind); }
      SameAlias(packet[..n], other[..n], key, kind);
    }
  }

  lemma SameTarget(r: Resource, s: Resource, kind: nat)
    requires SameRecord(r, s, kind) && r.body.Cname?
    ensures s.body.Cname? && SameLetters(r.body.target, s.body.target)
  {
  }

  lemma SameMentions(packet: seq<Resource>, other: seq<Resource>, key: string, kind: nat)
    requires SamePacket(packet, other, kind)
    ensures Mentions(packet, key) <==> Mentions(other, key)
  {
    hide Fold, SameRecord;
    forall i | 0 <= i < |packet| ensures Fold(packet[i].name) == Fold(other[i].name) {
      SameConcern(packet[i], other[i], key, kind);
    }
  }

  lemma {:induction false} SameReport(records: seq<Resource>, other: seq<Resource>, kind: nat)
    requires SamePacket(records, other, kind) && forall r :: r in records ==> Kind(r.body) == kind
    ensures SameAnswers(Report(records, kind), Report(other, kind))
    decreases |records|
  {
    hide RecordData, SameLetters;
    if records != [] {
      var n := |records| - 1;
      SameReport(records[..n], other[..n], kind);
      assert records[n] in records && records[n].body == other[n].body;
    }
  }

  /** Asking, and looking on in the packet at hand. */
  lemma {:induction false} SameAsk(server: Server, other: Server, kind: nat, a: string, b: string, seen: set<string>)
    requires SameServer(server, other, kind) && SameLetters(a, b)
    ensures SameAnswers(Ask(server, kind, a, seen), Ask(other, kind, b, seen))
    decreases LIMIT - |seen|, 1
  {
    hide Fold, SameLetters, Look, SamePacket;
    FoldExactly(a, b);
    if Fold(a) !in seen && |seen| < LIMIT && server(a).Ok? {
      SameLook(server, other, kind, server(a).value, other(b).value, a, b, seen + {Fold(a)});
    }
  }

  lemma {:induction false} SameLook(server: Server, other: Server, kind: nat, packet: seq<Resource>,
                                    spelled: seq<Resource>, a: string, b: string, seen: set<string>)
    requires SameServer(server, other, kind) && SameLetters(a, b) && SamePacket(packet, spelled, kind)
    ensures SameAnswers(Look(server, kind, packet, a, seen), Look(other, kind, spelled, b, seen))
    decreases LIMIT - |seen|, 2
  {
    hide Fold, SameLetters, Ask, SameRecord, Relevant, LastAlias, Mentions, Report, SameServer;
    FoldExactly(a, b);
    var key := Fold(a);
    SameRelevant(packet, spelled, key, kind);
    SameAlias(packet, spelled, key, kind);
    if Relevant(packet, key, kind) != [] {
      SameReport(Relevant(packet, key, kind), Relevant(spelled, key, kind), kind);
    } else if LastAlias(packet, key, kind).Some? {
      var next, goal := LastAlias(packet, key, kind).value, LastAlias(spelled, key, kind).value;
      FoldExactly(next, goal);
      SameMentions(packet, spelled, Fold(next), kind);
      if Fold(next) !in seen && !Mentions(packet, Fold(next)) {
        SameAsk(server, other, kind, next, goal, seen);
      } else if Fold(next) !in seen && |seen| < LIMIT {
        SameLook(server, other, kind, packet, spelled, next, goal, seen + {Fold(next)});
      }
    }
  }

  /** Names differ by their letters and not by their case: another spelling of the queried name, of
      any owner, or of any alias on the way gives the same answers. */
  lemma SpellingDoesNotMatter(server: Server, other: Server, kind: nat, a: string, b: string)
    requires SameServer(server, other, kind) && SameLetters(a, b)
    ensures SameAnswers(Ask(server, kind, a, {}), Ask(other, kind, b, {}))
  {
    hide SameServer, SameLetters, SameAnswers, Ask;
    SameAsk(server, other, kind, a, b, {});
  }

  /** A packet holds a name under any spelling and in any class. */
  lemma HeldInAnyClass(packet: seq<Resource>, name: string)
    ensures Mentions(packet, Fold(name)) <==> exists r :: r in packet && SameLetters(r.name, name)
  {
    hide Fold, SameLetters;
    forall r | r in packet ensures Fold(r.name) == Fold(name) <==> SameLetters(r.name, name) {
      FoldExactly(r.name, name);
    }
  }

  /** Sixteen names are inspected and sixteen exchanges made at the most, and the limit is reported
      only then. */
  lemma SixteenNames(server: Server, queried: string, kind: nat, zone: Zone, names: seq<string>, asked: seq<string>,
                     r: Result<seq<Answer>, Failure>)
    requires CameAbout(server, queried, kind, zone, names, asked, r)
    ensures |asked| <= |names| <= 16
    ensures r == Err(ChainLimit) && server(asked[|asked| - 1]).Ok? ==> |names| == 16
  {
    hide Chain, AskedOnce, Faithful, Agrees, Leads;
  }

  const EXAMPLE := [Resource("a.", 3, 5, Mx(1, "other.")), Resource("a.", 1, 300, Cname("B.")),
                    Resource("b.", 1, 60, Mx(10, "mail."))]

  lemma ExampleNames()
    ensures Fold("a.") == Fold("A.") && Fold("b.") == Fold("B.") && Fold("a.") != Fold("B.")
  {
    FoldExactly("a.", "A.");
    FoldExactly("b.", "B.");
    assert !SameLetter("a."[0], "B."[0]);
    FoldExactly("a.", "B.");
  }

  lemma ExampleRelevant(key: string)
    ensures key == Fold("a.") ==> Relevant(EXAMPLE, key, 15) == [] && LastAlias(EXAMPLE, key, 15) == Some("B.")
    ensures key == Fold("b.") ==> Relevant(EXAMPLE, key, 15) == [EXAMPLE[2]]
  {
    hide Fold;
    ExampleNames();
    var two := EXAMPLE[..2];
    assert EXAMPLE[..|EXAMPLE| - 1] == two && two[..|two| - 1] == [EXAMPLE[0]] && [EXAMPLE[0]][..0] == [];
    assert Relevant([EXAMPLE[0]], key, 15) == [];
    assert Relevant(two, key, 15) == [];
    assert LastAlias([EXAMPLE[0]], key, 15) == None;
    assert two[..1] == [EXAMPLE[0]] && two[1] == EXAMPLE[1];
  }

  lemma ExampleTarget(server: Server, seen: set<string>)
    ensures Look(server, 15, EXAMPLE, "B.", seen) == Ok([Answer("b.", 15, 60, "10 mail.")])
  {
    hide Fold, Relevant, LastAlias, Ask, Look, EXAMPLE;
    ExampleNames();
    ExampleRelevant(Fold("b."));
    var answers := [Answer("b.", 15, 60, "10 mail.")];
    ExampleReports();
    LookStep(server, 15, EXAMPLE, "B.", seen, Ok(answers), LastAlias(EXAMPLE, Fold("B."), 15));
  }

  lemma ExampleReports()
    ensures |EXAMPLE| == 3 && Reports([EXAMPLE[2]], 15, Ok([Answer("b.", 15, 60, "10 mail.")]))
    ensures Mentions(EXAMPLE, Fold("b."))
  {
    hide Fold;
    assert FormatUint(10) == "10";
    assert EXAMPLE[2] in EXAMPLE;
  }

  /** A query in capitals, through an alias in capitals, past a record of another class: the answer
      is the one record of the alias's target. */
  lemma FoundThroughAnAlias(server: Server)
    requires server("A.") == Ok(EXAMPLE)
    ensures Ask(server, 15, "A.", {}) == Ok([Answer("b.", 15, 60, "10 mail.")])
  {
    hide Fold, Relevant, LastAlias, Ask, Look, EXAMPLE, Mentions;
    ExampleNames();
    AskStep(server, 15, "A.", {});
    var seen := {Fold("A.")};
    ExampleRelevant(Fold("a."));
    ExampleReports();
    LookStep(server, 15, EXAMPLE, "A.", seen, Ok([]), Some("B."));
    ExampleTarget(server, seen + {Fold("B.")});
  }
}
