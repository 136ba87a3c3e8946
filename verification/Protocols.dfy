/** Capability matching and message code ranges (p2p/peer.go, p2p/protocol.go), following the section
    "Capability Messaging" of the devp2p RLPx specification. */
module Protocols {
  import opened Basics
  import opened Uint64

  /** Message codes below this belong to the base protocol. */
  const BASE_PROTOCOL_LENGTH: nat := 16

  datatype Cap = Cap(name: string, version: nat)
  datatype Protocol = Protocol(name: string, version: nat, length: nat)
  datatype ProtoRW = ProtoRW(proto: Protocol, offset: nat)

  function CapOf(p: Protocol): Cap { Cap(p.name, p.version) }

  // --------------------------------------------------------------------- order

  /** Strings compare lexicographically. */
  predicate NameLess(a: string, b: string) {
    b != [] && (a == [] || a[0] < b[0] || (a[0] == b[0] && NameLess(a[1..], b[1..])))
  }

  lemma {:induction false} FirstDifference(a: string, b: string) returns (k: nat)
    requires NameLess(a, b)
    ensures k <= |a| && k < |b| && a[..k] == b[..k] && (k == |a| || (k < |a| && a[k] < b[k]))
    decreases |a|
  {
    if a == [] || a[0] < b[0] {
      k := 0;
    } else {
      k := FirstDifference(a[1..], b[1..]);
      assert a[..k + 1] == [a[0]] + a[1..][..k] && b[..k + 1] == [b[0]] + b[1..][..k];
      k := k + 1;
    }
  }

  lemma {:induction false} LessAt(a: string, b: string, k: nat)
    requires k <= |a| && k < |b| && a[..k] == b[..k] && (k == |a| || (k < |a| && a[k] < b[k]))
    ensures NameLess(a, b)
    decreases k
  {
    if k > 0 {
      assert a[0] == a[..k][0] == b[..k][0] == b[0];
      assert a[1..][..k - 1] == a[..k][1..] && b[1..][..k - 1] == b[..k][1..];
      LessAt(a[1..], b[1..], k - 1);
    }
  }

  /** A name is less than another if it is a proper prefix, or has the lower character where they first differ. */
  lemma {:induction false} NameLessIff(a: string, b: string)
    ensures NameLess(a, b) <==>
            exists k: nat | k <= |a| && k <= |b| && a[..k] == b[..k] ::
              k < |b| && (k == |a| || (k < |a| && a[k] < b[k]))
    decreases |a|
  {
    if NameLess(a, b) {
      var k := FirstDifference(a, b);
    }
    if k: nat :| k <= |a| && k <= |b| && a[..k] == b[..k] && k < |b| && (k == |a| || (k < |a| && a[k] < b[k])) {
      LessAt(a, b, k);
    }
  }

  lemma {:induction false} NameLessTransitive(a: string, b: string, c: string)
    requires NameLess(a, b) && NameLess(b, c)
    ensures NameLess(a, c)
  {
    if a != [] && a[0] == b[0] == c[0] { NameLessTransitive(a[1..], b[1..], c[1..]); }
  }

  lemma {:induction false} NameLessTotal(a: string, b: string)
    ensures !(NameLess(a, b) && NameLess(b, a)) && !NameLess(a, a)
    ensures NameLess(a, b) || NameLess(b, a) || a == b
    decreases |a|
  {
    if a != [] {
      NameLessTotal(a[1..], a[1..]);
      if b != [] && a[0] == b[0] {
        NameLessTotal(a[1..], b[1..]);
        assert a == [a[0]] + a[1..] && b == [b[0]] + b[1..];
      }
    }
  }

  predicate CapLess(a: Cap, b: Cap) {
    NameLess(a.name, b.name) || (a.name == b.name && a.version < b.version)
  }

  /** Neither later name before an earlier one, nor a later version of a name before an earlier one. */
  ghost predicate Sorted(caps: seq<Cap>) {
    forall i, j | 0 <= i < j < |caps| :: !CapLess(caps[j], caps[i])
  }

  function Insert(c: Cap, caps: seq<Cap>): seq<Cap> {
    if caps == [] || !CapLess(caps[0], c) then [c] + caps else [caps[0]] + Insert(c, caps[1..])
  }

  /** The capabilities in ascending order. */
  function SortCaps(caps: seq<Cap>): seq<Cap> {
    if caps == [] then [] else Insert(caps[0], SortCaps(caps[1..]))
  }

  lemma CapLessTrans(a: Cap, b: Cap, c: Cap)
    requires !CapLess(b, a) && !CapLess(c, b)
    ensures !CapLess(c, a)
  {
    NameLessTotal(a.name, b.name);
    NameLessTotal(b.name, c.name);
    NameLessTotal(a.name, c.name);
    if NameLess(a.name, b.name) && NameLess(b.name, c.name) { NameLessTransitive(a.name, b.name, c.name); }
  }

  lemma SortedCons(c: Cap, rest: seq<Cap>)
    requires Sorted(rest) && forall x | x in rest :: !CapLess(x, c)
    ensures Sorted([c] + rest)
  {
    forall i, j | 0 <= i < j < |[c] + rest| ensures !CapLess(([c] + rest)[j], ([c] + rest)[i]) {
      assert rest[j - 1] in rest;
    }
  }

  lemma InsertHead(c: Cap, caps: seq<Cap>)
    requires Sorted(caps) && caps != [] && CapLess(caps[0], c)
    requires Sorted(Insert(c, caps[1..])) && multiset(Insert(c, caps[1..])) == multiset(caps[1..]) + multiset{c}
    ensures Sorted([caps[0]] + Insert(c, caps[1..]))
  {
    var rest := Insert(c, caps[1..]);
    NameLessTotal(caps[0].name, c.name);
    forall x | x in rest ensures !CapLess(x, caps[0]) {
      assert x in multiset(rest);
      if x != c {
        assert x in multiset(caps[1..]);
        var k :| 0 <= k < |caps[1..]| && caps[1..][k] == x;
        assert caps[k + 1] == x;
      }
    }
    SortedCons(caps[0], rest);
  }

  lemma {:induction false} InsertSorted(c: Cap, caps: seq<Cap>)
    requires Sorted(caps)
    ensures Sorted(Insert(c, caps)) && multiset(Insert(c, caps)) == multiset(caps) + multiset{c}
  {
    var r := Insert(c, caps);
    if caps == [] {
    } else if !CapLess(caps[0], c) {
      forall j | 0 < j < |r| ensures !CapLess(r[j], c) {
        assert r[j] == caps[j - 1];
        if j > 1 { CapLessTrans(c, caps[0], caps[j - 1]); }
      }
      forall i, j | 0 <= i < j < |r| ensures !CapLess(r[j], r[i]) {
        if i > 0 { assert r[i] == caps[i - 1] && r[j] == caps[j - 1]; }
      }
    } else {
      InsertSorted(c, caps[1..]);
      InsertHead(c, caps);
      assert caps == [caps[0]] + caps[1..];
    }
  }

  /** Sorting is a permutation into ascending order. */
  lemma {:induction false} SortCapsSorts(caps: seq<Cap>)
    ensures Sorted(SortCaps(caps)) && multiset(SortCaps(caps)) == multiset(caps)
  {
    if caps != [] {
      SortCapsSorts(caps[1..]);
      InsertSorted(caps[0], SortCaps(caps[1..]));
      assert caps == [caps[0]] + caps[1..];
    }
  }

  // ---------------------------------------------------------------- allocation

  /** The first own protocol with the given capability. */
  function FirstMatch(protocols: seq<Protocol>, c: Cap): Option<Protocol> {
    if protocols == [] then None
    else if CapOf(protocols[0]) == c then Some(protocols[0])
    else FirstMatch(protocols[1..], c)
  }

  lemma {:induction false} FirstMatchFinds(protocols: seq<Protocol>, c: Cap)
    ensures FirstMatch(protocols, c).Some? <==> exists p :: p in protocols && CapOf(p) == c
    ensures FirstMatch(protocols, c).Some? ==>
              FirstMatch(protocols, c).value in protocols && CapOf(FirstMatch(protocols, c).value) == c
  {
    if protocols != [] { FirstMatchFinds(protocols[1..], c); }
  }

  /** No earlier protocol has the capability. */
  lemma {:induction false} FirstMatchFirst(protocols: seq<Protocol>, c: Cap) returns (i: nat)
    requires FirstMatch(protocols, c).Some?
    ensures i < |protocols| && FirstMatch(protocols, c) == Some(protocols[i]) && CapOf(protocols[i]) == c
    ensures forall j | 0 <= j < i :: CapOf(protocols[j]) != c
  {
    if CapOf(protocols[0]) == c {
      i := 0;
    } else {
      i := FirstMatchFirst(protocols[1..], c);
      i := i + 1;
    }
  }

  /** A capability that both sides have. */
  ghost predicate Common(protocols: seq<Protocol>, caps: seq<Cap>, c: Cap) {
    c in caps && FirstMatch(protocols, c).Some?
  }

  /** The highest common version of its name. */
  ghost predicate Best(protocols: seq<Protocol>, caps: seq<Cap>, c: Cap) {
    && Common(protocols, caps, c)
    && forall d | Common(protocols, caps, d) && d.name == c.name :: d.version <= c.version
  }

  ghost predicate Increasing(names: seq<string>) {
    forall i, j | 0 <= i < j < |names| :: NameLess(names[i], names[j])
  }

  /** The first code after the ranges of `names`. */
  ghost function End(names: seq<string>, m: map<string, ProtoRW>): nat
    requires forall n | n in names :: n in m
  {
    if names == [] then BASE_PROTOCOL_LENGTH
    else m[names[|names| - 1]].offset + m[names[|names| - 1]].proto.length
  }

  /** The ranges follow each other in the order of names, from the end of the base protocol upward. */
  ghost predicate Tiles(names: seq<string>, m: map<string, ProtoRW>)
    requires forall n | n in names :: n in m
  {
    && (names != [] ==> m[names[0]].offset == BASE_PROTOCOL_LENGTH)
    && (forall i, j | 0 <= i < |names| && 0 <= j < |names| && i == j + 1 ::
          m[names[i]].offset == m[names[j]].offset + m[names[j]].proto.length)
  }

  /** `m` runs each common protocol name at its highest common version. */
  ghost predicate Picks(protocols: seq<Protocol>, caps: seq<Cap>, names: seq<string>, m: map<string, ProtoRW>) {
    && Increasing(names)
    && (forall n :: n in m <==> n in names)
    && (forall n | n in names ::
          && m[n].proto.name == n && Best(protocols, caps, CapOf(m[n].proto))
          && FirstMatch(protocols, CapOf(m[n].proto)) == Some(m[n].proto))
    && (forall c | Common(protocols, caps, c) :: c.name in names)
  }

  ghost predicate Allocates(protocols: seq<Protocol>, caps: seq<Cap>, names: seq<string>, m: map<string, ProtoRW>) {
    Picks(protocols, caps, names, m) && Tiles(names, m)
  }

  ghost predicate NoneAfter(seen: seq<Cap>, c: Cap) {
    forall d | d in seen :: !CapLess(c, d)
  }

  /** In ascending order, a name matched again is the one matched last. */
  lemma MatchedAgainIsLast(protocols: seq<Protocol>, seen: seq<Cap>, names: seq<string>, m: map<string, ProtoRW>,
                           c: Cap)
    requires Picks(protocols, seen, names, m) && NoneAfter(seen, c)
    ensures forall n | n in names :: n == c.name || NameLess(n, c.name)
    ensures c.name in names ==> names[|names| - 1] == c.name
  {
    forall n | n in names ensures n == c.name || NameLess(n, c.name) {
      assert CapOf(m[n].proto) in seen;
      NameLessTotal(n, c.name);
    }
    if c.name in names {
      var i :| 0 <= i < |names| && names[i] == c.name;
      var last := names[|names| - 1];
      assert last in names;
      NameLessTotal(last, c.name);
    }
  }

  lemma CommonSnoc(protocols: seq<Protocol>, seen: seq<Cap>, c: Cap, d: Cap)
    ensures Common(protocols, seen + [c], d)
            <==> Common(protocols, seen, d) || (d == c && FirstMatch(protocols, c).Some?)
  {
  }

  lemma NextSkipped(protocols: seq<Protocol>, seen: seq<Cap>, names: seq<string>, m: map<string, ProtoRW>, c: Cap)
    requires Allocates(protocols, seen, names, m) && FirstMatch(protocols, c).None?
    ensures Allocates(protocols, seen + [c], names, m)
  {
    forall d ensures Common(protocols, seen + [c], d) <==> Common(protocols, seen, d) {
      CommonSnoc(protocols, seen, c, d);
    }
  }

  lemma IncreasingSnoc(names: seq<string>, name: string)
    requires Increasing(names) && forall n | n in names :: n == name || NameLess(n, name)
    ensures Increasing(if name in names then names else names + [name])
  {
    if name !in names {
      forall i, j | 0 <= i < j < |names + [name]| ensures NameLess((names + [name])[i], (names + [name])[j]) {
        if j == |names| { assert names[i] in names; }
      }
    }
  }

  lemma BestStays(protocols: seq<Protocol>, seen: seq<Cap>, b: Cap, c: Cap)
    requires Best(protocols, seen, b) && b.name != c.name
    ensures Best(protocols, seen + [c], b)
  {
    CommonSnoc(protocols, seen, c, b);
  }

  lemma BestNew(protocols: seq<Protocol>, seen: seq<Cap>, c: Cap)
    requires NoneAfter(seen, c) && FirstMatch(protocols, c).Some?
    ensures Best(protocols, seen + [c], c)
  {
    CommonSnoc(protocols, seen, c, c);
  }

  lemma NextPicks(protocols: seq<Protocol>, seen: seq<Cap>, names: seq<string>, m: map<string, ProtoRW>, c: Cap,
                  p: Protocol, offset: nat)
    requires Picks(protocols, seen, names, m) && NoneAfter(seen, c) && FirstMatch(protocols, c) == Some(p)
             && CapOf(p) == c
    requires forall n | n in names :: n == c.name || NameLess(n, c.name)
    ensures var names' := if c.name in names then names else names + [c.name];
            Picks(protocols, seen + [c], names', m[c.name := ProtoRW(p, offset)])
  {
    IncreasingSnoc(names, c.name);
    BestNew(protocols, seen, c);
    forall n | n in names && n != c.name ensures Best(protocols, seen + [c], CapOf(m[n].proto)) {
      BestStays(protocols, seen, CapOf(m[n].proto), c);
    }
    forall d | Common(protocols, seen + [c], d) ensures d == c || Common(protocols, seen, d) {
      CommonSnoc(protocols, seen, c, d);
    }
  }

  lemma TilesReplaced(names: seq<string>, m: map<string, ProtoRW>, m': map<string, ProtoRW>)
    requires names != [] && (forall n | n in names :: n in m && n in m') && Tiles(names, m)
    requires forall i | 0 <= i < |names| && i != |names| - 1 :: m'[names[i]] == m[names[i]]
    requires m'[names[|names| - 1]].offset == m[names[|names| - 1]].offset
    ensures Tiles(names, m')
  {
  }

  lemma TilesAppended(names: seq<string>, m: map<string, ProtoRW>, m': map<string, ProtoRW>, name: string)
    requires (forall n | n in names :: n in m && n in m' && m'[n] == m[n]) && name in m' && Tiles(names, m)
    requires m'[name].offset == End(names, m)
    ensures Tiles(names + [name], m')
  {
  }

  lemma NextTiles(names: seq<string>, m: map<string, ProtoRW>, name: string, p: Protocol)
    requires Increasing(names) && (forall n :: n in m <==> n in names) && Tiles(names, m)
    requires name in names ==> names[|names| - 1] == name
    ensures var names' := if name in names then names else names + [name];
            var offset := if name in names then m[name].offset else End(names, m);
            var m' := m[name := ProtoRW(p, offset)];
            && Tiles(names', m') && End(names', m') == offset + p.length
            && (name in names ==> End(names, m) == offset + m[name].proto.length)
  {
    var offset := if name in names then m[name].offset else End(names, m);
    var m' := m[name := ProtoRW(p, offset)];
    forall i | 0 <= i < |names| && names[i] == name ensures i == |names| - 1 { NameLessTotal(name, name); }
    forall i | 0 <= i < |names| && i != |names| - 1 ensures m'[names[i]] == m[names[i]] { }
    if name in names { TilesReplaced(names, m, m'); } else { TilesAppended(names, m, m', name); }
  }

  /** A match replaces the older version of the same name, in its place, or goes after all ranges. */
  lemma NextMatched(protocols: seq<Protocol>, seen: seq<Cap>, names: seq<string>, m: map<string, ProtoRW>, c: Cap,
                    p: Protocol)
    requires Allocates(protocols, seen, names, m) && NoneAfter(seen, c) && FirstMatch(protocols, c) == Some(p)
             && CapOf(p) == c
    ensures var names' := if c.name in names then names else names + [c.name];
            var offset := if c.name in names then m[c.name].offset else End(names, m);
            var m' := m[c.name := ProtoRW(p, offset)];
            && Allocates(protocols, seen + [c], names', m') && End(names', m') == offset + p.length
            && (c.name in names ==> End(names, m) == offset + m[c.name].proto.length)
  {
    MatchedAgainIsLast(protocols, seen, names, m, c);
    var names' := if c.name in names then names else names + [c.name];
    var offset := if c.name in names then m[c.name].offset else End(names, m);
    NextPicks(protocols, seen, names, m, c, p, offset);
    NextTiles(names, m, c.name, p);
  }

  // ------------------------------------------------------------------ matching

  /** The inner loop of matchProtocols. */
  method FindProtocol(protocols: seq<Protocol>, c: Cap) returns (r: Option<Protocol>)
    ensures r == FirstMatch(protocols, c)
    ensures r.Some? ==> CapOf(r.value) == c
  {
    var i := 0;
    while i < |protocols|
      invariant 0 <= i <= |protocols|
      invariant FirstMatch(protocols[i..], c) == FirstMatch(protocols, c)
    {
      assert protocols[i..][1..] == protocols[i + 1..];
      if CapOf(protocols[i]) == c { return Some(protocols[i]); }
      i := i + 1;
    }
    r := None;
  }

  /** An allocation as the program stores it, with offsets wrapped to 64 bits. */
  ghost function Wrapped(m: map<string, ProtoRW>): map<string, ProtoRW> {
    map n | n in m :: m[n].(offset := Wrap(m[n].offset))
  }

  /** `result` is the allocation as stored, and equal to it if and only if the last offset fits 64 bits. */
  ghost predicate WrapsTo(names: seq<string>, ideal: map<string, ProtoRW>, result: map<string, ProtoRW>)
    requires forall n | n in names :: n in ideal
  {
    && result == Wrapped(ideal)
    && (result == ideal <==> names == [] || ideal[names[|names| - 1]].offset < UINT64)
  }

  /** The state of the loop after the capabilities `seen`. */
  ghost predicate Matching(protocols: seq<Protocol>, seen: seq<Cap>, result: map<string, ProtoRW>, offset: nat,
                           names: seq<string>, ideal: map<string, ProtoRW>)
  {
    Allocates(protocols, seen, names, ideal) && offset == Wrap(End(names, ideal)) && result == Wrapped(ideal)
  }

  lemma MatchingNext(protocols: seq<Protocol>, seen: seq<Cap>, result: map<string, ProtoRW>, offset: nat,
                     names: seq<string>, ideal: map<string, ProtoRW>, end: nat)
    requires Allocates(protocols, seen, names, ideal) && result == Wrapped(ideal)
    requires offset == Wrap(end) && end == End(names, ideal)
    ensures Matching(protocols, seen, result, offset, names, ideal)
  {
  }

  lemma NextState(protocols: seq<Protocol>, seen: seq<Cap>, names: seq<string>, m: map<string, ProtoRW>, c: Cap,
                  p: Protocol)
    returns (names': seq<string>, m': map<string, ProtoRW>, at: nat)
    requires Allocates(protocols, seen, names, m) && NoneAfter(seen, c) && FirstMatch(protocols, c) == Some(p)
             && CapOf(p) == c
    ensures Allocates(protocols, seen + [c], names', m') && m' == m[c.name := ProtoRW(p, at)]
            && End(names', m') == at + p.length
    ensures End(names, m) == if c.name in m then at + m[c.name].proto.length else at
  {
    NextMatched(protocols, seen, names, m, c, p);
    names' := if c.name in names then names else names + [c.name];
    at := if c.name in names then m[c.name].offset else End(names, m);
    m' := m[c.name := ProtoRW(p, at)];
  }

  method Revert(offset: nat, length: nat, ghost at: nat) returns (offset': nat)
    requires offset == Wrap(at + length)
    ensures offset' == Wrap(at)
  {
    WrapAdd(at + length, 0 - length);
    offset' := Wrap(offset - length);
  }

  method Advance(offset: nat, length: nat, ghost at: nat) returns (offset': nat)
    requires offset == Wrap(at)
    ensures offset' == Wrap(at + length)
  {
    WrapAdd(at, length);
    offset' := Wrap(offset + length);
  }

  lemma WrappedUpdate(m: map<string, ProtoRW>, n: string, rw: ProtoRW)
    ensures Wrapped(m[n := rw]) == Wrapped(m)[n := rw.(offset := Wrap(rw.offset))]
  {
  }

  /** Reverts an older match of the same name and assigns the new one at the running offset; `at` is the
      unwrapped offset it belongs at. */
  method Assign(p: Protocol, result: map<string, ProtoRW>, offset: nat, ghost end: nat, ghost at: nat,
                ghost ideal: map<string, ProtoRW>)
    returns (result': map<string, ProtoRW>, offset': nat, ghost end': nat)
    requires result == Wrapped(ideal)
    requires offset == Wrap(end) && end == if p.name in ideal then at + ideal[p.name].proto.length else at
    ensures result' == Wrapped(ideal[p.name := ProtoRW(p, at)]) && end' == at + p.length && offset' == Wrap(end')
  {
    end' := at + p.length;
    offset' := offset;
    if p.name in result { offset' := Revert(offset', result[p.name].proto.length, at); }
    WrappedUpdate(ideal, p.name, ProtoRW(p, at));
    result' := result[p.name := ProtoRW(p, offset')];
    offset' := Advance(offset', p.length, at);
  }

  /** One round of the loop. */
  method MatchCap(protocols: seq<Protocol>, ghost seen: seq<Cap>, c: Cap, result: map<string, ProtoRW>, offset: nat,
                  ghost names: seq<string>, ghost ideal: map<string, ProtoRW>)
    returns (result': map<string, ProtoRW>, offset': nat, ghost names': seq<string>, ghost ideal': map<string, ProtoRW>)
    requires Matching(protocols, seen, result, offset, names, ideal) && NoneAfter(seen, c)
    ensures Matching(protocols, seen + [c], result', offset', names', ideal')
  {
    result', offset', names', ideal' := result, offset, names, ideal;
    var proto := FindProtocol(protocols, c);
    if proto.Some? {
      ghost var at;
      names', ideal', at := NextState(protocols, seen, names, ideal, c, proto.value);
      ghost var end;
      result', offset', end := Assign(proto.value, result, offset, End(names, ideal), at, ideal);
      MatchingNext(protocols, seen + [c], result', offset', names', ideal', end);
    } else {
      NextSkipped(protocols, seen, names, ideal, c);
    }
  }

  lemma NextInOrder(sorted: seq<Cap>, i: nat)
    requires Sorted(sorted) && i < |sorted|
    ensures NoneAfter(sorted[..i], sorted[i]) && sorted[..i + 1] == sorted[..i] + [sorted[i]]
  {
    forall d | d in sorted[..i] ensures !CapLess(sorted[i], d) { var k :| 0 <= k < i && sorted[k] == d; }
  }

  /** Only which capabilities are advertised matters, not their order. */
  lemma SameCaps(protocols: seq<Protocol>, a: seq<Cap>, b: seq<Cap>, names: seq<string>, m: map<string, ProtoRW>)
    requires Allocates(protocols, a, names, m) && multiset(a) == multiset(b)
    ensures Allocates(protocols, b, names, m)
  {
    forall c ensures Common(protocols, a, c) <==> Common(protocols, b, c) {
      assert c in a <==> c in multiset(a);
    }
  }

  lemma {:induction false} EndBound(names: seq<string>, m: map<string, ProtoRW>, j: nat)
    requires (forall n | n in names :: n in m) && Tiles(names, m) && j < |names|
    ensures m[names[j]].offset + m[names[j]].proto.length <= End(names, m)
    decreases |names| - j
  {
    if j + 1 < |names| { EndBound(names, m, j + 1); }
  }

  /** An earlier range ends before a later one starts. */
  lemma {:induction false} RangesOrdered(names: seq<string>, m: map<string, ProtoRW>, i: nat, j: nat)
    requires (forall n | n in names :: n in m) && Tiles(names, m) && i <= j < |names|
    ensures BASE_PROTOCOL_LENGTH <= m[names[i]].offset <= m[names[j]].offset
    ensures i < j ==> m[names[i]].offset + m[names[i]].proto.length <= m[names[j]].offset
    ensures m[names[j]].offset + m[names[j]].proto.length <= End(names, m)
    decreases j
  {
    if i > 0 { RangesOrdered(names, m, i - 1, i - 1); }
    if i < j { RangesOrdered(names, m, i, j - 1); }
    if j + 1 < |names| { EndBound(names, m, j); }
  }

  lemma WrappedExact(names: seq<string>, m: map<string, ProtoRW>)
    requires (forall n :: n in m <==> n in names) && Tiles(names, m)
    ensures Wrapped(m) == m <==> names == [] || m[names[|names| - 1]].offset < UINT64
  {
    if names != [] {
      var last := names[|names| - 1];
      assert last in m && Wrapped(m)[last].offset == Wrap(m[last].offset);
      if m[last].offset < UINT64 {
        forall n | n in m ensures Wrapped(m)[n] == m[n] {
          var i :| 0 <= i < |names| && names[i] == n;
          RangesOrdered(names, m, i, |names| - 1);
        }
      }
    }
  }

  /** Runs every common protocol at its highest common version, on consecutive code ranges in the order of
      names.  The running offset is corrected when a newer version replaces an older one, so the result is the
      ideal allocation up to 64-bit wrap-around, whatever the intermediate sums; it is exactly the ideal one if
      all ranges fit. */
  method MatchProtocols(protocols: seq<Protocol>, caps: seq<Cap>)
    returns (result: map<string, ProtoRW>)
    ensures exists names, ideal :: Allocates(protocols, caps, names, ideal) && WrapsTo(names, ideal, result)
  {
    var sorted := SortCaps(caps);
    SortCapsSorts(caps);
    var offset := BASE_PROTOCOL_LENGTH;
    result := map[];
    ghost var names, ideal := [], map[];
    var i := 0;
    while i < |sorted|
      invariant 0 <= i <= |sorted|
      invariant Matching(protocols, sorted[..i], result, offset, names, ideal)
    {
      NextInOrder(sorted, i);
      result, offset, names, ideal := MatchCap(protocols, sorted[..i], sorted[i], result, offset, names, ideal);
      i := i + 1;
    }
    assert sorted[..i] == sorted;
    SameCaps(protocols, sorted, caps, names, ideal);
    WrappedExact(names, ideal);
    assert Allocates(protocols, caps, names, ideal) && WrapsTo(names, ideal, result);
  }

  // ------------------------------------------------------- ranges and agreement

  /** No code belongs to two protocols. */
  lemma RangesDisjoint(names: seq<string>, m: map<string, ProtoRW>, a: string, b: string, code: nat)
    requires (forall n :: n in m <==> n in names) && Tiles(names, m) && a in m && b in m
    requires m[a].offset <= code < m[a].offset + m[a].proto.length
    requires m[b].offset <= code < m[b].offset + m[b].proto.length
    ensures a == b
  {
    var i :| 0 <= i < |names| && names[i] == a;
    var j :| 0 <= j < |names| && names[j] == b;
    if i < j { RangesOrdered(names, m, i, j); }
    if j < i { RangesOrdered(names, m, j, i); }
  }

  /** Every code from the end of the base protocol up to the end of the last range belongs to a protocol. */
  lemma {:induction false} RangesCover(names: seq<string>, m: map<string, ProtoRW>, code: nat, j: nat)
    requires (forall n :: n in m <==> n in names) && Tiles(names, m) && j < |names|
    requires BASE_PROTOCOL_LENGTH <= code < m[names[j]].offset + m[names[j]].proto.length
    ensures exists n :: n in m && m[n].offset <= code < m[n].offset + m[n].proto.length
  {
    if code >= m[names[j]].offset {
      assert names[j] in m;
    } else {
      RangesCover(names, m, code, j - 1);
    }
  }

  lemma TailMembers(a: seq<string>, n: string)
    requires Increasing(a) && a != []
    ensures n in a[1..] <==> n in a && n != a[0]
  {
    assert a == [a[0]] + a[1..];
    if n in a[1..] {
      var i :| 0 <= i < |a[1..]| && a[1..][i] == n;
      assert NameLess(a[0], a[i + 1]);
      NameLessTotal(a[0], n);
    }
  }

  /** Two ascending lists of the same names are the same list. */
  lemma {:induction false} IncreasingUnique(a: seq<string>, b: seq<string>)
    requires Increasing(a) && Increasing(b) && (forall n :: n in a <==> n in b)
    ensures a == b
    decreases |a|
  {
    assert |b| > 0 ==> b[0] in a;
    assert |a| > 0 ==> a[0] in b;
    if a != [] {
      assert a[0] in a && a[0] in b && b[0] in b && b[0] in a;
      assert a[0] == b[0] by {
        var i :| 0 <= i < |b| && b[i] == a[0];
        var j :| 0 <= j < |a| && a[j] == b[0];
        NameLessTotal(a[0], b[0]);
      }
      forall n ensures n in a[1..] <==> n in b[1..] {
        NameLessTotal(a[0], n);
        TailMembers(a, n);
        TailMembers(b, n);
      }
      IncreasingUnique(a[1..], b[1..]);
      assert a == [a[0]] + a[1..] && b == [b[0]] + b[1..];
    }
  }

  /** `caps` advertises exactly the given protocols. */
  ghost predicate Advertises(caps: seq<Cap>, protocols: seq<Protocol>) {
    forall c :: c in caps <==> exists p :: p in protocols && CapOf(p) == c
  }

  /** Both nodes give a capability the same number of messages. */
  ghost predicate LengthsAgree(a: seq<Protocol>, b: seq<Protocol>) {
    forall p, q | p in a && q in b && CapOf(p) == CapOf(q) :: p.length == q.length
  }

  lemma {:induction false} SameOffset(names: seq<string>, ma: map<string, ProtoRW>, mb: map<string, ProtoRW>, i: nat)
    requires (forall n :: n in ma <==> n in names) && (forall n :: n in mb <==> n in names) && i < |names|
    requires Tiles(names, ma) && Tiles(names, mb) && forall n | n in names :: ma[n].proto == mb[n].proto
    ensures ma[names[i]].offset == mb[names[i]].offset
  {
    if i > 0 { SameOffset(names, ma, mb, i - 1); }
  }

  lemma SameOffsets(names: seq<string>, ma: map<string, ProtoRW>, mb: map<string, ProtoRW>)
    requires (forall n :: n in ma <==> n in names) && (forall n :: n in mb <==> n in names)
    requires Tiles(names, ma) && Tiles(names, mb) && forall n | n in names :: ma[n].proto == mb[n].proto
    ensures ma == mb
  {
    forall n | n in ma ensures ma[n] == mb[n] {
      var i :| 0 <= i < |names| && names[i] == n;
      SameOffset(names, ma, mb, i);
    }
  }

  /** If both nodes advertise exactly their protocols, and a capability has the same length on both, then both
      arrive at the same protocols, versions and code ranges. */
  lemma BothEndsAgree(pa: seq<Protocol>, pb: seq<Protocol>, capsA: seq<Cap>, capsB: seq<Cap>,
                      namesA: seq<string>, namesB: seq<string>, ma: map<string, ProtoRW>, mb: map<string, ProtoRW>)
    requires Advertises(capsA, pa) && Advertises(capsB, pb) && LengthsAgree(pa, pb)
    requires Allocates(pa, capsB, namesA, ma) && Allocates(pb, capsA, namesB, mb)
    ensures ma == mb
  {
    forall c ensures Common(pa, capsB, c) <==> Common(pb, capsA, c) {
      FirstMatchFinds(pa, c);
      FirstMatchFinds(pb, c);
    }
    forall n ensures n in namesA <==> n in namesB {
      if n in namesA { assert Common(pb, capsA, CapOf(ma[n].proto)); }
      if n in namesB { assert Common(pa, capsB, CapOf(mb[n].proto)); }
    }
    IncreasingUnique(namesA, namesB);
    forall n | n in namesA ensures ma[n].proto == mb[n].proto {
      var c, d := CapOf(ma[n].proto), CapOf(mb[n].proto);
      assert Common(pb, capsA, c) && Common(pa, capsB, d);
      assert c == d;
      FirstMatchFinds(pa, c);
      FirstMatchFinds(pb, c);
    }
    SameOffsets(namesA, ma, mb);
  }

  // ------------------------------------------------------------------ messages

  /** The range test of getProto, with its 64-bit sum. */
  predicate InRange(rw: ProtoRW, code: nat) {
    code >= rw.offset && code < Wrap(rw.offset + rw.proto.length)
  }

  /** Finds the protocol responsible for a code, trying the running protocols in any order. */
  method GetProto(running: map<string, ProtoRW>, code: nat) returns (r: Option<ProtoRW>)
    ensures r.Some? ==> exists n :: n in running && r.value == running[n] && InRange(running[n], code)
    ensures r.None? ==> forall n | n in running :: !InRange(running[n], code)
  {
    var rest := running.Keys;
    while rest != {}
      invariant rest <= running.Keys
      invariant forall n | n in running && n !in rest :: !InRange(running[n], code)
      decreases rest
    {
      var n :| n in rest;
      if InRange(running[n], code) { return Some(running[n]); }
      rest := rest - {n};
    }
    r := None;
  }

  /** The code put on the wire, or an error for a code the protocol does not have. */
  function WriteCode(rw: ProtoRW, code: nat): Result<nat> {
    if code >= rw.proto.length then Err("not handled") else Ok(Wrap(code + rw.offset))
  }

  function ReadCode(rw: ProtoRW, wire: nat): nat {
    Wrap(wire - rw.offset)
  }

  /** A message written for one protocol on one node is read for the same protocol, with the same code, on the
      other, and for no other protocol; its wire code does not clash with the base protocol. */
  lemma MessageRoundTrip(names: seq<string>, sender: map<string, ProtoRW>, receiver: map<string, ProtoRW>, name: string,
                         other: string, code: nat)
    requires (forall n :: n in sender <==> n in names) && Tiles(names, sender) && End(names, sender) < UINT64
    requires receiver == sender && name in sender && other in receiver && WriteCode(sender[name], code).Ok?
    ensures var wire := WriteCode(sender[name], code).value;
            && BASE_PROTOCOL_LENGTH <= wire
            && (InRange(receiver[other], wire) <==> other == name)
            && ReadCode(receiver[name], wire) == code
  {
    var i :| 0 <= i < |names| && names[i] == name;
    var j :| 0 <= j < |names| && names[j] == other;
    RangesOrdered(names, sender, i, i);
    RangesOrdered(names, sender, j, j);
    var wire := code + sender[name].offset;
    if sender[other].offset <= wire < sender[other].offset + sender[other].proto.length {
      RangesDisjoint(names, sender, name, other, wire);
    }
  }

  /** From end to end: two nodes that advertise exactly their protocols and agree on their lengths deliver every message
      to the protocol and the code it was written for, provided all ranges fit 64 bits. */
  lemma MessageDelivered(pa: seq<Protocol>, pb: seq<Protocol>, capsA: seq<Cap>, capsB: seq<Cap>, namesA: seq<string>,
                         namesB: seq<string>, ma: map<string, ProtoRW>, mb: map<string, ProtoRW>,
                         name: string, other: string, code: nat)
    requires Advertises(capsA, pa) && Advertises(capsB, pb) && LengthsAgree(pa, pb)
    requires Allocates(pa, capsB, namesA, ma) && Allocates(pb, capsA, namesB, mb) && End(namesA, ma) < UINT64
    requires name in ma && other in mb && WriteCode(ma[name], code).Ok?
    ensures var wire := WriteCode(ma[name], code).value;
            && BASE_PROTOCOL_LENGTH <= wire && name in mb
            && (InRange(mb[other], wire) <==> other == name)
            && ReadCode(mb[name], wire) == code
  {
    BothEndsAgree(pa, pb, capsA, capsB, namesA, namesB, ma, mb);
    MessageRoundTrip(namesA, ma, mb, name, other, code);
  }

  /** A protocol whose range does not fit 64 bits receives none of its messages. */
  lemma OverflowingRange(rw: ProtoRW, code: nat)
    requires rw.offset < UINT64 <= rw.offset + rw.proto.length && rw.proto.length < UINT64
    requires WriteCode(rw, code).Ok?
    ensures !InRange(rw, WriteCode(rw, code).value)
  {
    WrapPeriodic(rw.offset + rw.proto.length - UINT64);
    if code + rw.offset >= UINT64 { WrapPeriodic(code + rw.offset - UINT64); }
  }

  /** Every code a protocol may write on one side is in the range of that protocol, and of no other, on the other
      side. */
  ghost predicate EveryMessageArrives(sender: map<string, ProtoRW>, receiver: map<string, ProtoRW>) {
    forall name, other, code: nat | name in sender && other in receiver && WriteCode(sender[name], code).Ok? ::
      InRange(receiver[other], WriteCode(sender[name], code).value) <==> other == name
  }

  /** If the ranges up to the `j`-th do not fit 64 bits, some range starts below 2^64 and ends at or above it. */
  lemma {:induction false} CrossingRange(names: seq<string>, m: map<string, ProtoRW>, j: int) returns (i: nat)
    requires (forall n | n in names :: n in m) && Tiles(names, m) && 0 <= j < |names|
    requires m[names[j]].offset + m[names[j]].proto.length >= UINT64
    ensures i <= j && m[names[i]].offset < UINT64 <= m[names[i]].offset + m[names[i]].proto.length
    decreases j
  {
    if m[names[j]].offset < UINT64 { i := j; } else { i := CrossingRange(names, m, j - 1); }
  }

  lemma MessagesArriveIff(names: seq<string>, ideal: map<string, ProtoRW>)
    requires (forall n :: n in ideal <==> n in names) && Tiles(names, ideal)
    requires forall n | n in ideal :: ideal[n].proto.length < UINT64
    ensures EveryMessageArrives(Wrapped(ideal), Wrapped(ideal)) <==> End(names, ideal) < UINT64
  {
    if End(names, ideal) < UINT64 {
      if names != [] { RangesOrdered(names, ideal, |names| - 1, |names| - 1); }
      WrappedExact(names, ideal);
      forall name, other, code: nat | name in ideal && other in ideal && WriteCode(ideal[name], code).Ok?
        ensures InRange(ideal[other], WriteCode(ideal[name], code).value) <==> other == name
      {
        MessageRoundTrip(names, ideal, ideal, name, other, code);
      }
    } else {
      var i := CrossingRange(names, ideal, |names| - 1);
      var rw := Wrapped(ideal)[names[i]];
      OverflowingRange(rw, 0);
      assert names[i] in Wrapped(ideal) && WriteCode(rw, 0).Ok?;
    }
  }

  /** The exact condition between two nodes, for the maps as they are stored: all messages arrive if and only if all
      ranges together fit 64 bits. */
  lemma DeliveredIff(pa: seq<Protocol>, pb: seq<Protocol>, capsA: seq<Cap>, capsB: seq<Cap>, namesA: seq<string>,
                     namesB: seq<string>, ma: map<string, ProtoRW>, mb: map<string, ProtoRW>)
    requires Advertises(capsA, pa) && Advertises(capsB, pb) && LengthsAgree(pa, pb)
    requires Allocates(pa, capsB, namesA, ma) && Allocates(pb, capsA, namesB, mb)
    requires forall n | n in ma :: ma[n].proto.length < UINT64
    ensures EveryMessageArrives(Wrapped(ma), Wrapped(mb)) <==> End(namesA, ma) < UINT64
  {
    BothEndsAgree(pa, pb, capsA, capsB, namesA, namesB, ma, mb);
    MessagesArriveIff(namesA, ma);
  }

  /** A protocol that fits can lose its messages to one that does not: with ranges at 16, 26 and 2^64, the third is
      stored at 0, and a message of the first is in the range of both. */
  lemma WrappedRangeOverlaps()
    ensures var a := ProtoRW(Protocol("a", 1, 10), 16);
            var b := ProtoRW(Protocol("b", 1, UINT64 - 26), 26);
            var c := ProtoRW(Protocol("c", 1, 100), UINT64);
            var ideal := map["a" := a, "b" := b, "c" := c];
            && Tiles(["a", "b", "c"], ideal) && a.offset + a.proto.length < UINT64
            && InRange(Wrapped(ideal)["a"], WriteCode(a, 3).value)
            && InRange(Wrapped(ideal)["c"], WriteCode(a, 3).value)
  {
    WrapPeriodic(0);
  }
}
