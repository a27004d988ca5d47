/** Byte order on names, and the one ascending listing of a set of names. */
module NameOrder {
  predicate Less(a: string, b: string) {
    if b == "" then false
    else if a == "" then true
    else if a[0] != b[0] then a[0] < b[0]
    else Less(a[1..], b[1..])
  }

  lemma {:induction false} LessIsStrict(a: string, b: string)
    ensures Less(a, b) ==> !Less(b, a) && a != b
    ensures a != b ==> Less(a, b) || Less(b, a)
    decreases |a|
  {
    if a != "" && b != "" && a[0] == b[0] {
      LessIsStrict(a[1..], b[1..]);
      assert a == [a[0]] + a[1..] && b == [b[0]] + b[1..];
    }
  }

  lemma {:induction false} LessIsTransitive(a: string, b: string, c: string)
    requires Less(a, b) && Less(b, c)
    ensures Less(a, c)
    decreases |a|
  {
    if a != "" && a[0] == b[0] == c[0] {
      LessIsTransitive(a[1..], b[1..], c[1..]);
    }
  }

  /** The names agree up to the place, where the first one ends or has the smaller byte. */
  predicate SmallerAt(a: string, b: string, i: nat) {
    i <= |a| && i < |b| && a[..i] == b[..i] && (i == |a| || a[i] < b[i])
  }

  lemma SmallerLater(a: string, b: string, i: nat)
    requires a != "" && b != "" && a[0] == b[0] && 0 < i
    ensures SmallerAt(a, b, i) <==> SmallerAt(a[1..], b[1..], i - 1)
  {
    if i <= |a| && i <= |b| {
      assert a[..i] == [a[0]] + a[1..][..i - 1] && b[..i] == [b[0]] + b[1..][..i - 1];
    }
  }

  lemma SharedFirst(a: string, b: string, i: nat)
    requires SmallerAt(a, b, i) && i > 0
    ensures a != "" && b != "" && a[0] == b[0]
  {
    assert a[..i][0] == b[..i][0];
  }

  /** A name comes before another exactly when it is a prefix of it or has the smaller byte where
      they first differ. */
  lemma {:induction false} LessExactly(a: string, b: string)
    ensures Less(a, b) <==> exists i: nat :: SmallerAt(a, b, i)
    decreases |a|
  {
    if a == "" || b == "" || a[0] != b[0] {
      if Less(a, b) { assert SmallerAt(a, b, 0); }
      if i: nat :| SmallerAt(a, b, i) {
        if i > 0 { SharedFirst(a, b, i); }
      }
    } else {
      LessExactly(a[1..], b[1..]);
      if i: nat :| SmallerAt(a[1..], b[1..], i) { SmallerLater(a, b, i + 1); }
      if i: nat :| SmallerAt(a, b, i) {
        if i > 0 { SmallerLater(a, b, i); }
      }
    }
  }

  predicate Ascending(names: seq<string>) {
    forall i, j :: 0 <= i < j < |names| ==> Less(names[i], names[j])
  }

  function Elements(names: seq<string>): set<string> {
    set n | n in names
  }

  /** Where the name goes among ascending ones. */
  method Position(names: seq<string>, name: string) returns (at: nat)
    requires Ascending(names) && name !in names
    ensures at <= |names|
    ensures forall i :: 0 <= i < at ==> Less(names[i], name)
    ensures forall i :: at <= i < |names| ==> Less(name, names[i])
  {
    at := 0;
    while at < |names| && Less(names[at], name)
      invariant at <= |names|
      invariant forall i :: 0 <= i < at ==> Less(names[i], name)
    {
      at := at + 1;
    }
    if at < |names| {
      LessIsStrict(name, names[at]);
      forall i | at < i < |names| ensures Less(name, names[i]) {
        LessIsTransitive(name, names[at], names[i]);
      }
    }
  }

  lemma NoElements(names: seq<string>)
    ensures Elements(names) == {} <==> names == []
  {
    if names != [] {
      assert names[0] in Elements(names);
    }
  }

  lemma NoneAscending()
    ensures Ascending([])
  {
  }

  lemma InElements(names: seq<string>, name: string)
    ensures name in Elements(names) <==> name in names
  {
  }

  lemma Inserted(names: seq<string>, at: nat, name: string)
    requires Ascending(names) && at <= |names|
    requires forall i :: 0 <= i < at ==> Less(names[i], name)
    requires forall i :: at <= i < |names| ==> Less(name, names[i])
    ensures var more := names[..at] + [name] + names[at..];
      Ascending(more) && Elements(more) == Elements(names) + {name}
  {
    hide Less;
    assert names == names[..at] + names[at..];
  }

  method SortNames(keys: set<string>) returns (names: seq<string>)
    ensures Ascending(names) && Elements(names) == keys
  {
    hide Less, Ascending, Elements;
    names := [];
    NoElements(names);
    NoneAscending();
    var left := keys;
    while left != {}
      invariant left <= keys && Elements(names) == keys - left && Ascending(names)
      decreases |left|
    {
      var name :| name in left;
      assert name !in names by { InElements(names, name); }
      var at := Position(names, name);
      Inserted(names, at, name);
      names := names[..at] + [name] + names[at..];
      left := left - {name};
    }
  }

  lemma {:induction false} AscendingUnique(a: seq<string>, b: seq<string>)
    requires Ascending(a) && Ascending(b) && Elements(a) == Elements(b)
    ensures a == b
    decreases |a|
  {
    hide Less;
    if a == [] || b == [] {
      NoElements(a);
      NoElements(b);
    } else {
      SameFirst(a, b);
      TailElements(a);
      TailElements(b);
      AscendingUnique(a[1..], b[1..]);
      assert a == [a[0]] + a[1..] && b == [b[0]] + b[1..];
    }
  }

  lemma SameFirst(a: seq<string>, b: seq<string>)
    requires Ascending(a) && Ascending(b) && Elements(a) == Elements(b) && a != [] && b != []
    ensures a[0] == b[0]
  {
    hide Less;
    assert a[0] in Elements(a) && b[0] in Elements(b);
    var i :| 0 <= i < |b| && b[i] == a[0];
    var j :| 0 <= j < |a| && a[j] == b[0];
    LessIsStrict(a[0], b[0]);
  }

  lemma TailElements(names: seq<string>)
    requires Ascending(names) && names != []
    ensures Ascending(names[1..]) && Elements(names[1..]) == Elements(names) - {names[0]}
  {
    hide Less;
    forall i | 1 <= i < |names| ensures names[i] != names[0] {
      LessIsStrict(names[0], names[i]);
    }
  }
}
