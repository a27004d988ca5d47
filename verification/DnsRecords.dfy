/** Alias resolution of a record query: the loops that follow CNAME records through one packet
    or over many exchanges, against a recursive resolver on a fixed zone.

    A server is a function from the queried name to its answer section or its failure; a query
    asks for each name at most once. */
module DnsRecords {
  import opened Outcomes
  import opened DnsData
  import opened TxtEncoding

  /** The number of names a query may inspect. */
  const LIMIT := 16

  type Server = string -> Result<seq<Resource>, Failure>

  // ----- what a packet says about a name

  predicate Concerns(r: Resource, key: string) {
    r.rclass == CLASS_INET && Fold(r.name) == key
  }

  /** The records of the requested type that a packet holds for a name, in its order. */
  function Relevant(packet: seq<Resource>, key: string, kind: nat): (records: seq<Resource>)
    ensures forall r :: r in records ==> r in packet && Concerns(r, key) && Kind(r.body) == kind
  {
    if packet == [] then []
    else
      var last := packet[|packet| - 1];
      Relevant(packet[..|packet| - 1], key, kind)
      + (if Concerns(last, key) && Kind(last.body) == kind then [last] else [])
  }

  function Bodies(records: seq<Resource>): (bodies: seq<Body>)
    ensures |bodies| == |records|
  {
    seq(|records|, i requires 0 <= i < |records| => records[i].body)
  }

  predicate IsAlias(r: Resource, key: string, kind: nat) {
    Concerns(r, key) && Kind(r.body) != kind && r.body.Cname?
  }

  predicate Mentions(packet: seq<Resource>, key: string) {
    exists r :: r in packet && Fold(r.name) == key
  }

  // ----- the zone and the resolver it defines

  /** What the zone knows of a name: its records of the requested type, and its alias. */
  datatype Node = Node(records: multiset<Body>, alias: Option<string>)

  type Zone = string -> Node

  /** The packet carries all that is relevant of the name. */
  ghost predicate Carries(packet: seq<Resource>, zone: Zone, key: string, kind: nat) {
    && multiset(Bodies(Relevant(packet, key, kind))) == zone(key).records
    && (forall r :: r in packet && IsAlias(r, key, kind) ==> zone(key).alias == Some(Fold(r.body.target)))
    && (zone(key).alias.Some? ==> exists r :: r in packet && IsAlias(r, key, kind))
  }

  /** An answer carries the queried name, and every other name it mentions. */
  ghost predicate Faithful(zone: Zone, server: Server, kind: nat) {
    forall name :: server(name).Ok? ==>
      && Carries(server(name).value, zone, Fold(name), kind)
      && forall r :: r in server(name).value ==> Carries(server(name).value, zone, Fold(r.name), kind)
  }

  datatype Resolution = Found(key: string, records: multiset<Body>) | NoData | Looped | Exhausted

  /** A recursive resolver that looks at one name at a time. */
  ghost function Resolve(zone: Zone, key: string, seen: set<string>): Resolution
    decreases LIMIT - |seen|, 1
  {
    if key in seen then Looped
    else if |seen| >= LIMIT then Exhausted
    else Inspect(zone, key, seen + {key})
  }

  ghost function Inspect(zone: Zone, key: string, seen: set<string>): Resolution
    decreases LIMIT - |seen|, 2
  {
    if zone(key).records != multiset{} then Found(key, zone(key).records)
    else if zone(key).alias.None? then NoData
    else Resolve(zone, zone(key).alias.value, seen)
  }

  /** The answers are the encodings of the bodies, or the failure is that of one of them. */
  ghost predicate Encodes(bodies: seq<Body>, key: string, kind: nat, r: Result<seq<Answer>, Failure>) {
    match r
    case Ok(answers) =>
      && |answers| == |bodies|
      && forall i :: 0 <= i < |answers| ==>
           Fold(answers[i].name) == key && answers[i].kind == kind && RecordData(bodies[i]) == Ok(answers[i].data)
    case Err(error) => exists i :: 0 <= i < |bodies| && RecordData(bodies[i]) == Err(error)
  }

  ghost predicate Agrees(r: Result<seq<Answer>, Failure>, resolution: Resolution, kind: nat) {
    match resolution
    case Found(key, records) => exists bodies :: multiset(bodies) == records && Encodes(bodies, key, kind, r)
    case NoData => r == Ok([])
    case Looped => r == Err(CnameLoop)
    case Exhausted => r == Err(ChainLimit)
  }

  // ----- the query

  /** The answers are the encodings of the records, one each and in their order, or the failure
      is that of the first record that has no encoding. */
  ghost predicate Reports(records: seq<Resource>, kind: nat, r: Result<seq<Answer>, Failure>) {
    match r
    case Ok(answers) =>
      && |answers| == |records|
      && forall i :: 0 <= i < |answers| ==>
           && RecordData(records[i].body).Ok?
           && answers[i] == Answer(records[i].name, kind, records[i].ttl, RecordData(records[i].body).value)
    case Err(error) =>
      exists i ::
        && 0 <= i < |records|
        && RecordData(records[i].body) == Err(error)
        && forall j :: 0 <= j < i ==> RecordData(records[j].body).Ok?
  }

  /** The target of the last alias of the name in the packet. */
  function LastAlias(packet: seq<Resource>, key: string, kind: nat): Option<string> {
    if packet == [] then None
    else
      var last := packet[|packet| - 1];
      if IsAlias(last, key, kind) then Some(last.body.target)
      else LastAlias(packet[..|packet| - 1], key, kind)
  }

  /** The answers, or the failure of the first record that has no encoding. */
  function Report(records: seq<Resource>, kind: nat): Result<seq<Answer>, Failure> {
    if records == [] then Ok([])
    else
      var last := records[|records| - 1];
      match Report(records[..|records| - 1], kind)
      case Err(error) => Err(error)
      case Ok(answers) =>
        match RecordData(last.body)
        case Err(error) => Err(error)
        case Ok(data) => Ok(answers + [Answer(last.name, kind, last.ttl, data)])
  }

  /** The query as a recursion over names: each is asked for, or looked up in the packet at hand. */
  function Ask(server: Server, kind: nat, name: string, seen: set<string>): Result<seq<Answer>, Failure>
    decreases LIMIT - |seen|, 1
  {
    if Fold(name) in seen then Err(CnameLoop)
    else if |seen| >= LIMIT then Err(ChainLimit)
    else if server(name).Err? then Err(server(name).error)
    else Look(server, kind, server(name).value, name, seen + {Fold(name)})
  }

  function Look(server: Server, kind: nat, packet: seq<Resource>, name: string,
                seen: set<string>): Result<seq<Answer>, Failure>
    decreases LIMIT - |seen|, 2
  {
    var own := Relevant(packet, Fold(name), kind);
    if own != [] then Report(own, kind)
    else
      match LastAlias(packet, Fold(name), kind)
      case None => Ok([])
      case Some(next) =>
        if Fold(next) in seen then Err(CnameLoop)
        else if !Mentions(packet, Fold(next)) then Ask(server, kind, next, seen)
        else if |seen| >= LIMIT then Err(ChainLimit)
        else Look(server, kind, packet, next, seen + {Fold(next)})
  }

  lemma ReportsFewer(records: seq<Resource>, kind: nat, r: Result<seq<Answer>, Failure>)
    requires records != [] && Reports(records, kind, r)
    ensures var init, last := records[..|records| - 1], records[|records| - 1];
      match r
      case Ok(answers) =>
        && |answers| == |records| && Reports(init, kind, Ok(answers[..|init|])) && RecordData(last.body).Ok?
        && answers == answers[..|init|] + [Answer(last.name, kind, last.ttl, RecordData(last.body).value)]
      case Err(error) =>
        || Reports(init, kind, r)
        || ((forall j :: 0 <= j < |init| ==> RecordData(init[j].body).Ok?) && RecordData(last.body) == Err(error))
  {
    hide RecordData;
    var n := |records| - 1;
    assert forall i :: 0 <= i < n ==> records[..n][i] == records[i];
  }

  lemma {:induction false} ReportsOnly(records: seq<Resource>, kind: nat, r: Result<seq<Answer>, Failure>)
    requires Reports(records, kind, r)
    ensures r == Report(records, kind)
    decreases |records|
  {
    hide RecordData;
    if records != [] {
      hide Reports;
      var init := records[..|records| - 1];
      ReportsFewer(records, kind, r);
      match r
      case Ok(answers) => ReportsOnly(init, kind, Ok(answers[..|init|]));
      case Err(_) => if Reports(init, kind, r) { ReportsOnly(init, kind, r); } else { AllEncode(init, kind); }
    }
  }

  lemma {:induction false} AllEncode(records: seq<Resource>, kind: nat)
    requires forall j :: 0 <= j < |records| ==> RecordData(records[j].body).Ok?
    ensures Report(records, kind).Ok?
    decreases |records|
  {
    hide RecordData;
    if records != [] { AllEncode(records[..|records| - 1], kind); }
  }

  method EncodeData(body: Body) returns (data: Result<string, Failure>)
    ensures data == RecordData(body)
  {
    if body.Txt? {
      var encoded := BuildTxt(body.strings);
      return if encoded.Some? then Ok(encoded.value) else Err(NotImplemented);
    }
    data := RecordData(body);
  }

  lemma ScanStep(packet: seq<Resource>, i: nat, key: string, kind: nat)
    requires i < |packet|
    ensures Relevant(packet[..i + 1], key, kind) ==
            if Concerns(packet[i], key) && Kind(packet[i].body) == kind
              then Relevant(packet[..i], key, kind) + [packet[i]]
            else Relevant(packet[..i], key, kind)
    ensures LastAlias(packet[..i + 1], key, kind) ==
            if IsAlias(packet[i], key, kind) then Some(packet[i].body.target) else LastAlias(packet[..i], key, kind)
  {
    hide Fold, Kind;
    assert packet[..i + 1][..i] == packet[..i];
  }

  lemma ReportsMore(records: seq<Resource>, record: Resource, kind: nat, found: seq<Answer>, data: string)
    requires Reports(records, kind, Ok(found)) && RecordData(record.body) == Ok(data)
    ensures Reports(records + [record], kind, Ok(found + [Answer(record.name, kind, record.ttl, data)]))
  {
    hide RecordData;
  }

  lemma ReportsFailure(packet: seq<Resource>, i: nat, key: string, kind: nat, found: seq<Answer>, error: Failure)
    requires i < |packet| && Concerns(packet[i], key) && Kind(packet[i].body) == kind
    requires Reports(Relevant(packet[..i], key, kind), kind, Ok(found)) && RecordData(packet[i].body) == Err(error)
    ensures Reports(Relevant(packet, key, kind), kind, Err(error))
  {
    hide RecordData, Relevant, Concerns, Kind;
    ScanStep(packet, i, key, kind);
    RelevantKeeps(packet, i + 1, key, kind);
    var records, before := Relevant(packet, key, kind), Relevant(packet[..i], key, kind);
    assert records[|before|] == packet[i];
    assert forall j :: 0 <= j < |before| ==> records[j] == before[j];
  }

  lemma ScanBegins(packet: seq<Resource>, key: string, kind: nat)
    ensures Reports(Relevant(packet[..0], key, kind), kind, Ok([])) && LastAlias(packet[..0], key, kind) == None
  {
  }

  /** Collects the answers for the name and the alias to follow when there are none. */
  method ScanPacket(packet: seq<Resource>, name: string, kind: nat)
    returns (answers: Result<seq<Answer>, Failure>, target: Option<string>)
    ensures Reports(Relevant(packet, Fold(name), kind), kind, answers)
    ensures answers.Ok? ==> target == LastAlias(packet, Fold(name), kind)
  {
    hide RecordData, Fold, Relevant, LastAlias, Reports, Kind;
    var key := Fold(name);
    var found: seq<Answer> := [];
    target := None;
    ScanBegins(packet, key, kind);
    for i := 0 to |packet|
      invariant Reports(Relevant(packet[..i], key, kind), kind, Ok(found))
      invariant target == LastAlias(packet[..i], key, kind)
    {
      var resource := packet[i];
      ScanStep(packet, i, key, kind);
      if resource.rclass == CLASS_INET && Fold(resource.name) == key {
        if Kind(resource.body) == kind {
          var data := EncodeData(resource.body);
          if data.Err? {
            ReportsFailure(packet, i, key, kind, found, data.error);
            return Err(data.error), None;
          }
          ReportsMore(Relevant(packet[..i], key, kind), resource, kind, found, data.value);
          found := found + [Answer(resource.name, kind, resource.ttl, data.value)];
        } else if resource.body.Cname? {
          target := Some(resource.body.target);
        }
      }
    }
    assert packet[..|packet|] == packet;
    answers := Ok(found);
  }

  lemma {:induction false} RelevantKeeps(packet: seq<Resource>, n: nat, key: string, kind: nat)
    requires n <= |packet|
    ensures Relevant(packet[..n], key, kind) <= Relevant(packet, key, kind)
    decreases |packet|
  {
    if n == |packet| {
      assert packet[..n] == packet;
    } else {
      var shorter := packet[..|packet| - 1];
      RelevantKeeps(shorter, n, key, kind);
      assert shorter[..n] == packet[..n];
    }
  }

  /** The records of the name: those of its letters, of class IN and of the type, each as often as
      the packet holds it. */
  lemma {:induction false} RelevantExactly(packet: seq<Resource>, name: string, kind: nat, r: Resource)
    ensures multiset(Relevant(packet, Fold(name), kind))[r] ==
      if r.rclass == 1 && SameLetters(r.name, name) && Kind(r.body) == kind then multiset(packet)[r] else 0
    decreases |packet|
  {
    hide Fold, Kind, SameLetters;
    FoldExactly(r.name, name);
    if packet != [] {
      var init, last := packet[..|packet| - 1], packet[|packet| - 1];
      assert packet == init + [last];
      RelevantExactly(init, name, kind, r);
    }
  }

  /** The alias that is followed is the last one in the packet, of class IN and another type. */
  lemma {:induction false} AliasExactly(packet: seq<Resource>, name: string, kind: nat, target: string)
    ensures LastAlias(packet, Fold(name), kind) == Some(target) <==>
      exists i :: 0 <= i < |packet| && packet[i].body == Cname(target)
        && FollowsFrom(packet[i], name, kind)
        && forall j :: i < j < |packet| ==> !FollowsFrom(packet[j], name, kind)
    decreases |packet|
  {
    hide Fold, SameLetters;
    if packet != [] {
      var init, last := packet[..|packet| - 1], packet[|packet| - 1];
      assert packet == init + [last];
      FoldExactly(last.name, name);
      AliasExactly(init, name, kind, target);
      if FollowsFrom(last, name, kind) {
        assert packet[|packet| - 1] == last;
      } else {
        if i :| 0 <= i < |init| && init[i].body == Cname(target) && FollowsFrom(init[i], name, kind)
                && forall j :: i < j < |init| ==> !FollowsFrom(init[j], name, kind) {
          assert packet[i] == init[i];
        }
        if i :| 0 <= i < |packet| && packet[i].body == Cname(target) && FollowsFrom(packet[i], name, kind)
                && forall j :: i < j < |packet| ==> !FollowsFrom(packet[j], name, kind) {
          assert init[i] == packet[i];
        }
      }
    }
  }

  predicate FollowsFrom(r: Resource, name: string, kind: nat) {
    r.rclass == 1 && SameLetters(r.name, name) && r.body.Cname? && kind != 5
  }

  lemma {:induction false} LastAliasFacts(packet: seq<Resource>, key: string, kind: nat)
    ensures LastAlias(packet, key, kind).Some? <==> exists r :: r in packet && IsAlias(r, key, kind)
    ensures LastAlias(packet, key, kind).Some? ==>
      exists r :: r in packet && IsAlias(r, key, kind) && r.body.target == LastAlias(packet, key, kind).value
    decreases |packet|
  {
    if packet != [] {
      var init, last := packet[..|packet| - 1], packet[|packet| - 1];
      assert packet == init + [last];
      LastAliasFacts(init, key, kind);
    }
  }

  /** An alias that some response of the run holds. */
  ghost predicate Linked(server: Server, asked: seq<string>, kind: nat, from: string, to: string) {
    exists q, r :: q in asked && server(q).Ok? && r in server(q).value
                   && IsAlias(r, Fold(from), kind) && r.body.target == to
  }

  /** The names inspected so far: from the queried one along aliases, all different. */
  ghost predicate Chain(server: Server, asked: seq<string>, kind: nat, names: seq<string>) {
    && (forall i, j :: 0 <= i < j < |names| ==> Fold(names[i]) != Fold(names[j]))
    && (forall i :: 0 <= i < |names| - 1 ==> Linked(server, asked, kind, names[i], names[i + 1]))
  }

  ghost function Keys(names: seq<string>): set<string> {
    set n | n in names :: Fold(n)
  }

  /** Reads one name of a packet: what the zone says there is what the packet says. */
  lemma ReadName(zone: Zone, packet: seq<Resource>, key: string, kind: nat, seen: set<string>)
    requires Carries(packet, zone, key, kind)
    ensures var bodies, target := Bodies(Relevant(packet, key, kind)), LastAlias(packet, key, kind);
      Inspect(zone, key, seen) ==
        if bodies != [] then Found(key, multiset(bodies))
        else if target.None? then NoData
        else Resolve(zone, Fold(target.value), seen)
  {
    LastAliasFacts(packet, key, kind);
    var bodies := Bodies(Relevant(packet, key, kind));
    assert bodies != [] ==> bodies[0] in multiset(bodies);
  }

  lemma MoreAsked(server: Server, asked: seq<string>, kind: nat, names: seq<string>, name: string)
    requires Chain(server, asked, kind, names)
    ensures Chain(server, asked + [name], kind, names)
    ensures forall from, to :: Linked(server, asked, kind, from, to) ==> Linked(server, asked + [name], kind, from, to)
  {
    forall from, to | Linked(server, asked, kind, from, to)
      ensures Linked(server, asked + [name], kind, from, to)
    {
      var q, r :| q in asked && server(q).Ok? && r in server(q).value
                  && IsAlias(r, Fold(from), kind) && r.body.target == to;
      assert q in asked + [name];
    }
  }

  lemma ChainExtends(server: Server, asked: seq<string>, kind: nat, names: seq<string>, name: string)
    requires Chain(server, asked, kind, names) && Fold(name) !in Keys(names)
    requires names != [] ==> Linked(server, asked, kind, names[|names| - 1], name)
    ensures Chain(server, asked, kind, names + [name]) && Keys(names + [name]) == Keys(names) + {Fold(name)}
  {
    assert forall n :: n in names ==> Fold(n) in Keys(names);
    assert name in names + [name];
  }

  lemma FaithfulCarries(zone: Zone, server: Server, kind: nat, q: string, key: string)
    requires Faithful(zone, server, kind) && server(q).Ok?
    requires key == Fold(q) || exists r :: r in server(q).value && Fold(r.name) == key
    ensures Carries(server(q).value, zone, key, kind)
  {
  }

  lemma ResolveStep(zone: Zone, key: string, seen: set<string>, kind: nat)
    ensures key in seen ==> Agrees(Err(CnameLoop), Resolve(zone, key, seen), kind)
    ensures key !in seen && |seen| >= LIMIT ==> Agrees(Err(ChainLimit), Resolve(zone, key, seen), kind)
    ensures key !in seen && |seen| < LIMIT ==> Resolve(zone, key, seen) == Inspect(zone, key, seen + {key})
  {
  }

  /** What a scan of the packet makes of a name is what the zone says of it. */
  lemma ScanAgrees(zone: Zone, packet: seq<Resource>, name: string, kind: nat, seen: set<string>,
                   answers: Result<seq<Answer>, Failure>, target: Option<string>)
    requires Carries(packet, zone, Fold(name), kind)
    requires Reports(Relevant(packet, Fold(name), kind), kind, answers)
    requires answers.Ok? ==> target == LastAlias(packet, Fold(name), kind)
    ensures answers.Err? || answers.value != [] || target.None? ==>
      Agrees(answers, Inspect(zone, Fold(name), seen), kind)
    ensures answers == Ok([]) && target.Some? ==>
      Inspect(zone, Fold(name), seen) == Resolve(zone, Fold(target.value), seen)
  {
    hide Carries, Resolve, Inspect, LastAlias, Fold, Bodies, Encodes, Reports, Relevant;
    var records := Relevant(packet, Fold(name), kind);
    ReportsEncode(records, Fold(name), kind, answers);
    ReadName(zone, packet, Fold(name), kind, seen);
  }

  lemma ReportsEncode(records: seq<Resource>, key: string, kind: nat, r: Result<seq<Answer>, Failure>)
    requires Reports(records, kind, r) && forall record :: record in records ==> Concerns(record, key)
    ensures Encodes(Bodies(records), key, kind, r)
    ensures r.Ok? ==> (r.value == [] <==> Bodies(records) == [])
    ensures r.Err? ==> Bodies(records) != []
  {
    hide RecordData, Fold;
    if r.Ok? {
      assert forall i :: 0 <= i < |records| ==> Concerns(records[i], key);
      assert forall i :: 0 <= i < |records| ==> Bodies(records)[i] == records[i].body;
    } else {
      var i :| 0 <= i < |records| && RecordData(records[i].body) == Err(r.error);
      assert RecordData(Bodies(records)[i]) == Err(r.error);
    }
  }

  lemma FollowedAlias(server: Server, asked: seq<string>, kind: nat, q: string, name: string)
    requires q in asked && server(q).Ok? && LastAlias(server(q).value, Fold(name), kind).Some?
    ensures Linked(server, asked, kind, name, LastAlias(server(q).value, Fold(name), kind).value)
  {
    LastAliasFacts(server(q).value, Fold(name), kind);
  }

  /** The state between two names: those inspected so far, each seen once. */
  ghost predicate Following(server: Server, asked: seq<string>, kind: nat, names: seq<string>, seen: set<string>) {
    |names| == |seen| <= LIMIT && seen == Keys(names) && Chain(server, asked, kind, names)
  }

  lemma StartFollowing(server: Server, kind: nat)
    ensures Following(server, [], kind, [], {})
  {
  }

  lemma FollowOne(server: Server, asked: seq<string>, kind: nat, names: seq<string>, seen: set<string>, name: string)
    requires Following(server, asked, kind, names, seen) && Fold(name) !in seen && |seen| < LIMIT
    requires names != [] ==> Linked(server, asked, kind, names[|names| - 1], name)
    ensures Following(server, asked, kind, names + [name], seen + {Fold(name)})
  {
    hide Chain, Linked, Fold, Keys;
    ChainExtends(server, asked, kind, names, name);
  }

  lemma AskOne(server: Server, asked: seq<string>, kind: nat, names: seq<string>, seen: set<string>, name: string)
    requires Following(server, asked, kind, names, seen)
    ensures Following(server, asked + [name], kind, names, seen)
  {
    hide Linked, Keys, Chain;
    MoreAsked(server, asked, kind, names, name);
  }

  method Holds(packet: seq<Resource>, key: string) returns (found: bool)
    ensures found <==> Mentions(packet, key)
  {
    for i := 0 to |packet|
      invariant forall j :: 0 <= j < i ==> Fold(packet[j].name) != key
    {
      if Fold(packet[i].name) == key { return true; }
    }
    found := false;
  }

  /** The packet has no record of the last name but an alias of it, the last one to the next. */
  ghost predicate Leads(packet: seq<Resource>, names: seq<string>, kind: nat, next: string)
    requires names != []
  {
    var key := Fold(names[|names| - 1]);
    Relevant(packet, key, kind) == [] && LastAlias(packet, key, kind) == Some(next)
  }

  /** Why a query ends with the packet: with the last name's records, one each, or none when it
      has no alias either; with the first record that has no encoding; with an alias back to a
      name inspected before; or with an alias beyond the limit. */
  ghost predicate Ends(packet: seq<Resource>, names: seq<string>, kind: nat, r: Result<seq<Answer>, Failure>)
    requires names != []
  {
    var key := Fold(names[|names| - 1]);
    match r
    case Ok(answers) =>
      Reports(Relevant(packet, key, kind), kind, r) && (answers == [] ==> LastAlias(packet, key, kind).None?)
    case Err(CnameLoop) => exists next :: Leads(packet, names, kind, next) && Fold(next) in Keys(names)
    case Err(ChainLimit) => |names| == LIMIT && exists next ::
      Leads(packet, names, kind, next) && Fold(next) !in Keys(names)
    case Err(_) => Reports(Relevant(packet, key, kind), kind, r)
  }

  lemma ScanLeads(packet: seq<Resource>, names: seq<string>, kind: nat, next: string)
    requires names != [] && Reports(Relevant(packet, Fold(names[|names| - 1]), kind), kind, Ok([]))
    requires LastAlias(packet, Fold(names[|names| - 1]), kind) == Some(next)
    ensures Leads(packet, names, kind, next)
  {
  }

  lemma ScanEnds(packet: seq<Resource>, names: seq<string>, kind: nat, r: Result<seq<Answer>, Failure>)
    requires names != [] && Reports(Relevant(packet, Fold(names[|names| - 1]), kind), kind, r)
    requires r.Ok? && r.value == [] ==> LastAlias(packet, Fold(names[|names| - 1]), kind).None?
    ensures Ends(packet, names, kind, r)
  {
    hide RecordData, Fold, Relevant, LastAlias;
    if r.Err? {
      var records := Relevant(packet, Fold(names[|names| - 1]), kind);
      var i :| 0 <= i < |records| && RecordData(records[i].body) == Err(r.error);
      EncodingFailures(records[i].body);
    }
  }

  lemma AliasEnds(packet: seq<Resource>, names: seq<string>, kind: nat, next: string)
    requires names != [] && Leads(packet, names, kind, next)
    ensures Fold(next) in Keys(names) ==> Ends(packet, names, kind, Err(CnameLoop))
    ensures Fold(next) !in Keys(names) && |names| == LIMIT ==> Ends(packet, names, kind, Err(ChainLimit))
  {
    hide Leads, Keys, Fold;
  }

  lemma AliasFound(server: Server, asked: seq<string>, kind: nat, names: seq<string>, packet: seq<Resource>,
                   next: string)
    requires asked != [] && server(asked[|asked| - 1]) == Ok(packet) && names != []
    requires Reports(Relevant(packet, Fold(names[|names| - 1]), kind), kind, Ok([]))
    requires LastAlias(packet, Fold(names[|names| - 1]), kind) == Some(next)
    ensures Linked(server, asked, kind, names[|names| - 1], next) && Leads(packet, names, kind, next)
    ensures Fold(next) in Keys(names) ==> Ends(packet, names, kind, Err(CnameLoop))
    ensures Fold(next) !in Keys(names) && |names| == LIMIT ==> Ends(packet, names, kind, Err(ChainLimit))
  {
    hide Fold, Relevant, LastAlias, Linked, Leads, Ends, Keys, Reports;
    FollowedAlias(server, asked, kind, asked[|asked| - 1], names[|names| - 1]);
    ScanLeads(packet, names, kind, next);
    AliasEnds(packet, names, kind, next);
  }

  /** Follows aliases within the packet that answers the last name asked. It comes to a result,
      or to a name that the packet does not hold and that was not seen: never to its bound. */
  method FollowPacket(server: Server, packet: seq<Resource>, first: string, kind: nat, before: set<string>,
                      ghost inspected: seq<string>, ghost asked: seq<string>, ghost zone: Zone)
    returns (r: Option<Result<seq<Answer>, Failure>>, next: string, seen: set<string>, ghost names: seq<string>)
    requires asked != [] && server(asked[|asked| - 1]) == Ok(packet)
    requires Following(server, asked, kind, inspected, before)
    requires inspected != [] && inspected[|inspected| - 1] == first == asked[|asked| - 1]
    ensures Following(server, asked, kind, names, seen) && inspected <= names
    ensures r.Some? ==> Ends(packet, names, kind, r.value)
    ensures r.None? ==> Fold(next) !in seen && Leads(packet, names, kind, next)
    ensures r.None? ==> Linked(server, asked, kind, names[|names| - 1], next)
    ensures Look(server, kind, packet, first, before) == if r.Some? then r.value else Ask(server, kind, next, seen)
    ensures Faithful(zone, server, kind) ==>
      var answer := Inspect(zone, Fold(first), before);
      if r.Some? then Agrees(r.value, answer, kind) else answer == Resolve(zone, Fold(next), seen)
  {
    hide Chain, Linked, Faithful, Carries, Fold, Mentions, Keys, Reports, Relevant, LastAlias, Resolve, Inspect, Agrees;
    hide Ends, Leads, Look, Ask;
    ghost var whole := Look(server, kind, packet, first, before);
    ghost var faithful := Faithful(zone, server, kind);
    ghost var answer := Inspect(zone, Fold(first), before);
    ghost var q := asked[|asked| - 1];
    var name := first;
    seen, names, next := before, inspected, first;
    if faithful { FaithfulCarries(zone, server, kind, q, Fold(name)); }
    for j := 0 to LIMIT
      invariant j < |seen| && Following(server, asked, kind, names, seen) && inspected <= names
      invariant names[|names| - 1] == name && whole == Look(server, kind, packet, name, seen)
      invariant faithful ==> Carries(packet, zone, Fold(name), kind) && answer == Inspect(zone, Fold(name), seen)
    {
      var answers, target := ScanPacket(packet, name, kind);
      if faithful { ScanAgrees(zone, packet, name, kind, seen, answers, target); }
      LookStep(server, kind, packet, name, seen, answers, target);
      if answers.Err? || answers.value != [] || target.None? {
        ScanEnds(packet, names, kind, answers);
        return Some(answers), name, seen, names;
      }
      next := target.value;
      AliasFound(server, asked, kind, names, packet, next);
      var key := Fold(next);
      ResolveStep(zone, key, seen, kind);
      if key in seen { return Some(Err(CnameLoop)), next, seen, names; }
      var inPacket := Holds(packet, key);
      if !inPacket { return None, next, seen, names; }
      if |seen| >= LIMIT { return Some(Err(ChainLimit)), next, seen, names; }
      if faithful { MentionedCarries(zone, server, kind, q, key); }
      FollowOne(server, asked, kind, names, seen, next);
      seen, names, name := seen + {key}, names + [next], next;
    }
    assert false;
  }

  /** What a scan of the packet makes of a name is what the recursion makes of it. */
  lemma LookStep(server: Server, kind: nat, packet: seq<Resource>, name: string, seen: set<string>,
                 answers: Result<seq<Answer>, Failure>, target: Option<string>)
    requires Reports(Relevant(packet, Fold(name), kind), kind, answers)
    requires answers.Ok? ==> target == LastAlias(packet, Fold(name), kind)
    ensures Look(server, kind, packet, name, seen) ==
      if answers.Err? || answers.value != [] || target.None? then answers
      else if Fold(target.value) in seen then Err(CnameLoop)
      else if !Mentions(packet, Fold(target.value)) then Ask(server, kind, target.value, seen)
      else if |seen| >= LIMIT then Err(ChainLimit)
      else Look(server, kind, packet, target.value, seen + {Fold(target.value)})
  {
    hide Fold, LastAlias, Relevant, Ask, Mentions, RecordData;
    ReportsOnly(Relevant(packet, Fold(name), kind), kind, answers);
  }

  lemma MentionedCarries(zone: Zone, server: Server, kind: nat, q: string, key: string)
    requires Faithful(zone, server, kind) && server(q).Ok? && Mentions(server(q).value, key)
    ensures Carries(server(q).value, zone, key, kind)
  {
    hide Carries;
  }

  /** How a result came about: the names inspected, in order, over the exchanges for `asked`. All
      names differ and each is the target of an alias of the one before it; the names asked for
      are among them, each asked once and the queried one first. The first exchange that fails
      ends the query with its error. Otherwise the last packet ends it, with what the recursive
      resolver makes of the zone, if the server is faithful to it. */
  ghost predicate CameAbout(server: Server, queried: string, kind: nat, zone: Zone, names: seq<string>,
                            asked: seq<string>,
                            r: Result<seq<Answer>, Failure>) {
    && 1 <= |asked| <= |names| <= LIMIT && names[0] == asked[0] == queried
    && Chain(server, asked, kind, names)
    && AskedOnce(names, asked)
    && (forall i :: 0 <= i < |asked| - 1 ==> server(asked[i]).Ok?)
    && match server(asked[|asked| - 1])
       case Err(error) => r == Err(error)
       case Ok(packet) =>
         && Ends(packet, names, kind, r)
         && (Faithful(zone, server, kind) ==> Agrees(r, Resolve(zone, Fold(queried), {}), kind))
  }

  ghost predicate AskedOnce(names: seq<string>, asked: seq<string>) {
    && (forall q :: q in asked ==> q in names)
    && (forall i, j :: 0 <= i < j < |asked| ==> asked[i] != asked[j])
  }

  lemma AskNew(names: seq<string>, asked: seq<string>, name: string)
    requires AskedOnce(names, asked) && Fold(name) !in Keys(names)
    ensures AskedOnce(names + [name], asked + [name])
  {
    assert name !in asked;
  }

  lemma AskedStays(names: seq<string>, more: seq<string>, asked: seq<string>)
    requires AskedOnce(names, asked) && names <= more
    ensures AskedOnce(more, asked)
  {
  }

  lemma Concluded(server: Server, queried: string, kind: nat, zone: Zone, names: seq<string>, asked: seq<string>,
                  seen: set<string>, r: Result<seq<Answer>, Failure>)
    requires 1 <= |asked| <= |names| && names[0] == asked[0] == queried
    requires Following(server, asked, kind, names, seen) && AskedOnce(names, asked)
    requires forall i :: 0 <= i < |asked| - 1 ==> server(asked[i]).Ok?
    requires server(asked[|asked| - 1]).Err? ==> r == Err(server(asked[|asked| - 1]).error)
    requires server(asked[|asked| - 1]).Ok? ==> Ends(server(asked[|asked| - 1]).value, names, kind, r)
    requires server(asked[|asked| - 1]).Ok? && Faithful(zone, server, kind) ==>
      Agrees(r, Resolve(zone, Fold(queried), {}), kind)
    ensures CameAbout(server, queried, kind, zone, names, asked, r)
  {
    hide Chain, Faithful, Fold, Keys, Resolve, Agrees, AskedOnce, Ends;
  }

  /** Follows aliases to the records of the name, whatever zone the server is faithful to. */
  method QueryRecords(server: Server, queried: string, kind: nat, ghost zone: Zone)
    returns (r: Result<seq<Answer>, Failure>)
    ensures exists names, asked :: CameAbout(server, queried, kind, zone, names, asked, r)
    ensures r == Ask(server, kind, queried, {})
  {
    hide Chain, Linked, Faithful, Carries, Fold, Mentions, Keys, Reports, Relevant, LastAlias, Resolve, Inspect, Agrees;
    hide AskedOnce, Ends, Leads, CameAbout, Ask, Look;
    ghost var whole := Ask(server, kind, queried, {});
    ghost var faithful := Faithful(zone, server, kind);
    ghost var answer := Resolve(zone, Fold(queried), {});
    var seen: set<string>, name := {}, queried;
    ghost var names: seq<string>, asked: seq<string> := [], [];
    StartFollowing(server, kind);
    assert AskedOnce(names, asked) by { NothingAsked(); }
    for i := 0 to LIMIT
      invariant |asked| == i <= |names| && Following(server, asked, kind, names, seen) && Fold(name) !in seen
      invariant if i == 0 then name == queried && names == []
                else names[0] == asked[0] == queried && Linked(server, asked, kind, names[|names| - 1], name)
      invariant AskedOnce(names, asked)
      invariant forall k :: 0 <= k < |asked| ==> server(asked[k]).Ok?
      invariant i > 0 ==> Leads(server(asked[|asked| - 1]).value, names, kind, name)
      invariant faithful ==> answer == Resolve(zone, Fold(name), seen)
      invariant whole == Ask(server, kind, name, seen)
    {
      var key := Fold(name);
      AskStep(server, kind, name, seen);
      ResolveStep(zone, key, seen, kind);
      if key in seen { return Err(CnameLoop); }
      if |seen| >= LIMIT {
        AliasEnds(server(asked[|asked| - 1]).value, names, kind, name);
        Concluded(server, queried, kind, zone, names, asked, seen, Err(ChainLimit));
        return Err(ChainLimit);
      }
      FollowOne(server, asked, kind, names, seen, name);
      AskNew(names, asked, name);
      seen, names := seen + {key}, names + [name];
      AskOne(server, asked, kind, names, seen, name);
      asked := asked + [name];
      var message := server(name);
      if message.Err? {
        Concluded(server, queried, kind, zone, names, asked, seen, Err(message.error));
        return Err(message.error);
      }
      ghost var before := names;
      var done: Option<Result<seq<Answer>, Failure>>;
      done, name, seen, names := FollowPacket(server, message.value, name, kind, seen, names, asked, zone);
      AskedStays(before, names, asked);
      if done.Some? {
        Concluded(server, queried, kind, zone, names, asked, seen, done.value);
        return done.value;
      }
    }
    ResolveStep(zone, Fold(name), seen, kind);
    AskStep(server, kind, name, seen);
    AliasEnds(server(asked[|asked| - 1]).value, names, kind, name);
    r := Err(ChainLimit);
    Concluded(server, queried, kind, zone, names, asked, seen, r);
  }

  lemma AskStep(server: Server, kind: nat, name: string, seen: set<string>)
    ensures Ask(server, kind, name, seen) ==
      if Fold(name) in seen then Err(CnameLoop)
      else if |seen| >= LIMIT then Err(ChainLimit)
      else if server(name).Err? then Err(server(name).error)
      else Look(server, kind, server(name).value, name, seen + {Fold(name)})
  {
  }

  lemma NothingAsked()
    ensures AskedOnce([], [])
  {
  }
}
