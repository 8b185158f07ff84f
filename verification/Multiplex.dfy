/** internal/p2p/peer.go: how two peers lay out message codes. matchProtocols is proved to compute a layout that
    depends only on the shared capabilities, so both ends compute the same one. */
module Multiplex {
  import opened Machine
  import opened Text

  datatype Cap = Cap(name: string, version: nat)
  datatype Protocol = Protocol(name: string, version: nat, length: u64)
  datatype Slot = Slot(version: nat, length: u64, offset: u64)
  type Layout = map<string, Slot>

  const BASE_PROTOCOL_LENGTH: u64 := 16

  // ---- Order of names and capabilities ----

  /** Go's string order: bytewise, a proper prefix first. */
  predicate Before(a: string, b: string) {
    b != "" && (a == "" || a[0] < b[0] || (a[0] == b[0] && Before(a[1..], b[1..])))
  }

  lemma {:induction false} BeforeTotal(a: string, b: string)
    ensures Before(a, b) || a == b || Before(b, a)
    ensures !(Before(a, b) && (a == b || Before(b, a)))
  {
    if a != "" && b != "" && a[0] == b[0] {
      BeforeTotal(a[1..], b[1..]);
      assert a == [a[0]] + a[1..] && b == [b[0]] + b[1..];
    }
  }

  lemma {:induction false} BeforeTransitive(a: string, b: string, c: string)
    requires Before(a, b) && Before(b, c)
    ensures Before(a, c)
  {
    if a != "" && a[0] == b[0] == c[0] {
      BeforeTransitive(a[1..], b[1..], c[1..]);
    }
  }

  /** Cap.Cmp: by name, then by version. */
  predicate CapLeq(c: Cap, d: Cap) { Before(c.name, d.name) || (c.name == d.name && c.version <= d.version) }

  ghost predicate Sorted(caps: seq<Cap>) { forall i, j :: 0 <= i < j < |caps| ==> CapLeq(caps[i], caps[j]) }

  // ---- The layout, independent of any order ----

  predicate Matches(p: Protocol, c: Cap) { p.name == c.name && p.version == c.version }

  ghost predicate Offered(protocols: seq<Protocol>, c: Cap) { exists p :: p in protocols && Matches(p, c) }

  /** The capabilities that both a protocol list and a capability list have. */
  ghost function Shared(protocols: seq<Protocol>, caps: seq<Cap>): set<Cap> {
    set c | c in caps && Offered(protocols, c)
  }

  /** The length of the first matching protocol. */
  function LengthOf(protocols: seq<Protocol>, c: Cap): u64 {
    if protocols == [] then 0
    else if Matches(protocols[0], c) then protocols[0].length
    else LengthOf(protocols[1..], c)
  }

  ghost function PickName(names: set<string>): string
    requires names != {}
    ensures PickName(names) in names
  {
    var n :| n in names; n
  }

  /** The sum of the lengths of the named slots. */
  ghost function LengthSum(layout: Layout, names: set<string>): nat
    requires names <= layout.Keys
    decreases |names|
  {
    if names == {} then 0
    else layout[PickName(names)].length + LengthSum(layout, names - {PickName(names)})
  }

  ghost function Smaller(layout: Layout, name: string): (names: set<string>)
    ensures names <= layout.Keys
  {
    set n | n in layout && Before(n, name)
  }

  /** The slot of a name holds a shared version, with the length of its protocol, and starts after the base
      protocol and all smaller names. */
  ghost predicate SlotRight(layout: Layout, shared: set<Cap>, protocols: seq<Protocol>, n: string)
    requires n in layout
  {
    && Cap(n, layout[n].version) in shared
    && layout[n].length == LengthOf(protocols, Cap(n, layout[n].version))
    && layout[n].offset == Wrap64(BASE_PROTOCOL_LENGTH + LengthSum(layout, Smaller(layout, n)))
  }

  /** Each shared name has a slot, of no lower version. */
  ghost predicate Highest(layout: Layout, shared: set<Cap>) {
    forall c :: c in shared ==> c.name in layout && c.version <= layout[c.name].version
  }

  /** Each shared name has one slot, with its highest shared version. */
  ghost predicate IsLayout(layout: Layout, shared: set<Cap>, protocols: seq<Protocol>) {
    && Highest(layout, shared)
    && (forall n :: n in layout ==> SlotRight(layout, shared, protocols, n))
  }

  // ---- Sums ----

  lemma {:induction false} LengthSumRemove(layout: Layout, names: set<string>, n: string)
    requires names <= layout.Keys && n in names
    ensures LengthSum(layout, names) == layout[n].length + LengthSum(layout, names - {n})
    decreases |names|
  {
    var p := PickName(names);
    if p != n {
      LengthSumRemove(layout, names - {p}, n);
      LengthSumRemove(layout, names - {n}, p);
      assert names - {p} - {n} == names - {n} - {p};
    }
  }

  /** The sum depends only on the lengths of the names summed. */
  lemma {:induction false} LengthSumSame(a: Layout, b: Layout, names: set<string>)
    requires names <= a.Keys && names <= b.Keys
    requires forall n :: n in names ==> a[n].length == b[n].length
    ensures LengthSum(a, names) == LengthSum(b, names)
    decreases |names|
  {
    if names != {} {
      LengthSumSame(a, b, names - {PickName(names)});
    }
  }

  lemma {:induction false} LengthSumSubset(layout: Layout, few: set<string>, many: set<string>)
    requires few <= many <= layout.Keys
    ensures LengthSum(layout, few) <= LengthSum(layout, many)
    decreases |many|
  {
    if few != many {
      var n :| n in many && n !in few;
      LengthSumRemove(layout, many, n);
      LengthSumSubset(layout, few, many - {n});
    }
  }

  // ---- Agreement ----

  /** A layout is determined by the shared capabilities and their lengths. */
  lemma LayoutUnique(a: Layout, b: Layout, shared: set<Cap>, p: seq<Protocol>, q: seq<Protocol>)
    requires IsLayout(a, shared, p) && IsLayout(b, shared, q)
    requires forall c :: c in shared ==> LengthOf(p, c) == LengthOf(q, c)
    ensures a == b
  {
    forall n | n in a
      ensures n in b && a[n].version == b[n].version && a[n].length == b[n].length
    {
      assert Cap(n, a[n].version) in shared;
      assert Cap(n, b[n].version) in shared;
    }
    forall n | n in b ensures n in a {
      assert Cap(n, b[n].version) in shared;
    }
    assert a.Keys == b.Keys;
    forall n | n in a ensures a[n].offset == b[n].offset {
      assert Smaller(a, n) == Smaller(b, n);
      LengthSumSame(a, b, Smaller(a, n));
    }
  }

  /** The capabilities a peer announces: those of its protocols, in any order and number. */
  ghost predicate Announces(caps: seq<Cap>, protocols: seq<Protocol>) {
    forall c :: c in caps <==> Offered(protocols, c)
  }

  lemma {:induction false} LengthOfMatch(protocols: seq<Protocol>, c: Cap)
    requires Offered(protocols, c)
    ensures exists p :: p in protocols && Matches(p, c) && p.length == LengthOf(protocols, c)
  {
    if Matches(protocols[0], c) {
      assert protocols[0] in protocols;
    } else {
      var p :| p in protocols && Matches(p, c);
      assert p in protocols[1..];
      LengthOfMatch(protocols[1..], c);
      var q :| q in protocols[1..] && Matches(q, c) && q.length == LengthOf(protocols[1..], c);
      assert q in protocols;
    }
  }

  /** Two peers, each matching its own protocols against what the other announces, get the same map from names
      to versions, lengths and offsets, provided protocols of equal name and version have equal lengths. */
  lemma PeersAgree(ours: seq<Protocol>, theirs: seq<Protocol>, ourCaps: seq<Cap>, theirCaps: seq<Cap>, a: Layout,
      b: Layout)
    requires Announces(ourCaps, ours) && Announces(theirCaps, theirs)
    requires forall p, q :: p in ours && q in theirs && p.name == q.name && p.version == q.version ==>
        p.length == q.length
    requires IsLayout(a, Shared(ours, theirCaps), ours) && IsLayout(b, Shared(theirs, ourCaps), theirs)
    ensures a == b
  {
    assert Shared(ours, theirCaps) == Shared(theirs, ourCaps);
    forall c | c in Shared(ours, theirCaps) ensures LengthOf(ours, c) == LengthOf(theirs, c) {
      LengthOfMatch(ours, c);
      LengthOfMatch(theirs, c);
    }
    LayoutUnique(a, b, Shared(ours, theirCaps), ours, theirs);
  }

  // ---- The ranges tile the code space ----

  ghost function TotalLength(layout: Layout): nat { LengthSum(layout, layout.Keys) }

  /** Every end of a range fits 64 bits, so no offset and no comparison wraps. */
  ghost predicate Fits(layout: Layout) { BASE_PROTOCOL_LENGTH + TotalLength(layout) < TWO64 }

  /** getProto's test. */
  predicate Owns(layout: Layout, name: string, code: u64) {
    name in layout && layout[name].offset <= code < Add64(layout[name].offset, layout[name].length)
  }

  lemma RangeOf(layout: Layout, shared: set<Cap>, protocols: seq<Protocol>, n: string)
    requires IsLayout(layout, shared, protocols) && Fits(layout) && n in layout
    ensures layout[n].offset == BASE_PROTOCOL_LENGTH + LengthSum(layout, Smaller(layout, n))
    ensures LengthSum(layout, Smaller(layout, n) + {n}) == LengthSum(layout, Smaller(layout, n)) + layout[n].length
    ensures layout[n].offset + layout[n].length <= BASE_PROTOCOL_LENGTH + TotalLength(layout)
  {
    assert SlotRight(layout, shared, protocols, n);
    BeforeTotal(n, n);
    assert Smaller(layout, n) + {n} - {n} == Smaller(layout, n);
    hide Wrap64, LengthSum, LengthOf, Before, Smaller, Highest;
    LengthSumRemove(layout, Smaller(layout, n) + {n}, n);
    LengthSumSubset(layout, Smaller(layout, n) + {n}, layout.Keys);
    WrapFits(BASE_PROTOCOL_LENGTH + LengthSum(layout, Smaller(layout, n)));
  }

  lemma RangesOrdered(layout: Layout, shared: set<Cap>, protocols: seq<Protocol>, m: string, n: string)
    requires IsLayout(layout, shared, protocols) && Fits(layout) && m in layout && n in layout && Before(m, n)
    ensures layout[m].offset + layout[m].length <= layout[n].offset
  {
    RangeOf(layout, shared, protocols, m);
    RangeOf(layout, shared, protocols, n);
    forall x | x in Smaller(layout, m) + {m} ensures x in Smaller(layout, n) {
      if x != m {
        BeforeTransitive(x, m, n);
      }
    }
    LengthSumSubset(layout, Smaller(layout, m) + {m}, Smaller(layout, n));
  }

  lemma {:induction false} LargestName(names: set<string>) returns (m: string)
    requires names != {}
    ensures m in names && forall n :: n in names && n != m ==> Before(n, m)
    decreases |names|
  {
    m := PickName(names);
    if names != {m} {
      var k := LargestName(names - {m});
      BeforeTotal(m, k);
      if Before(m, k) {
        m := k;
      } else {
        forall n | n in names && n != m ensures Before(n, m) {
          if n != k {
            BeforeTransitive(n, k, m);
          }
        }
      }
    }
  }

  /** The set holds, with each name, all smaller ones. */
  ghost predicate Closed(layout: Layout, names: set<string>) {
    names <= layout.Keys && forall n :: n in names ==> Smaller(layout, n) <= names
  }

  lemma WithoutLargest(layout: Layout, names: set<string>, m: string)
    requires Closed(layout, names) && m in names
    requires forall n :: n in names && n != m ==> Before(n, m)
    ensures names - {m} == Smaller(layout, m) && Closed(layout, Smaller(layout, m))
    ensures LengthSum(layout, names) == layout[m].length + LengthSum(layout, Smaller(layout, m))
  {
    BeforeTotal(m, m);
    hide LengthSum, Before;
    assert names - {m} == Smaller(layout, m);
    forall n | n in Smaller(layout, m) ensures Smaller(layout, n) <= Smaller(layout, m) {
      assert m !in Smaller(layout, n) by { BeforeTotal(n, m); }
    }
    LengthSumRemove(layout, names, m);
  }

  lemma AllClosed(layout: Layout)
    ensures Closed(layout, layout.Keys)
  {
  }

  lemma OffsetOf(layout: Layout, shared: set<Cap>, protocols: seq<Protocol>, n: string)
    requires IsLayout(layout, shared, protocols) && n in layout
    ensures BASE_PROTOCOL_LENGTH + LengthSum(layout, Smaller(layout, n)) < TWO64 ==>
              layout[n].offset == BASE_PROTOCOL_LENGTH + LengthSum(layout, Smaller(layout, n))
  {
    hide LengthSum, LengthOf, Smaller, Highest;
    assert SlotRight(layout, shared, protocols, n);
  }

  /** A set of names that holds, with each name, all smaller ones covers its codes without a gap. */
  lemma {:induction false} Covered(layout: Layout, shared: set<Cap>, protocols: seq<Protocol>, names: set<string>,
      code: u64)
    returns (owner: string)
    requires IsLayout(layout, shared, protocols) && Fits(layout) && Closed(layout, names)
    requires BASE_PROTOCOL_LENGTH <= code < BASE_PROTOCOL_LENGTH + LengthSum(layout, names)
    ensures Owns(layout, owner, code)
    decreases |names|
  {
    assert names != {};
    var m := LargestName(names);
    WithoutLargest(layout, names, m);
    RangeOf(layout, shared, protocols, m);
    hide IsLayout, Closed, LengthSum, Before, Smaller;
    if code >= layout[m].offset {
      owner := m;
    } else {
      owner := Covered(layout, shared, protocols, names - {m}, code);
    }
  }

  /** A code in [16, 16 + total) has exactly one owner, any other code has none. */
  ghost predicate TiledAt(layout: Layout, code: u64) {
    && ((exists n :: Owns(layout, n, code))
        <==> BASE_PROTOCOL_LENGTH <= code < BASE_PROTOCOL_LENGTH + TotalLength(layout))
    && forall m, n :: Owns(layout, m, code) && Owns(layout, n, code) ==> m == n
  }

  lemma FitTiles(layout: Layout, shared: set<Cap>, protocols: seq<Protocol>, code: u64)
    requires IsLayout(layout, shared, protocols) && Fits(layout)
    ensures TiledAt(layout, code)
  {
    if BASE_PROTOCOL_LENGTH <= code < BASE_PROTOCOL_LENGTH + TotalLength(layout) {
      AllClosed(layout);
      var owner := Covered(layout, shared, protocols, layout.Keys, code);
    }
    forall n | Owns(layout, n, code)
      ensures BASE_PROTOCOL_LENGTH <= code < BASE_PROTOCOL_LENGTH + TotalLength(layout)
    {
      RangeOf(layout, shared, protocols, n);
    }
    forall m, n | Owns(layout, m, code) && Owns(layout, n, code)
      ensures m == n
    {
      RangeOf(layout, shared, protocols, m);
      RangeOf(layout, shared, protocols, n);
      BeforeTotal(m, n);
      if Before(m, n) {
        RangesOrdered(layout, shared, protocols, m, n);
      } else if Before(n, m) {
        RangesOrdered(layout, shared, protocols, n, m);
      }
    }
  }

  /** The ranges tile [16, 16 + total) exactly when its end fits 64 bits: no range can own the last 64-bit code,
      since its end would have to be one more. */
  lemma RangesTile(layout: Layout, shared: set<Cap>, protocols: seq<Protocol>)
    requires IsLayout(layout, shared, protocols)
    ensures (forall code: u64 :: TiledAt(layout, code)) <==> Fits(layout)
  {
    if Fits(layout) {
      forall code: u64 ensures TiledAt(layout, code) {
        FitTiles(layout, shared, protocols, code);
      }
    } else {
      var last: u64 := TWO64 - 1;
      assert !exists n :: Owns(layout, n, last);
      assert !TiledAt(layout, last);
    }
  }

  // ---- matchProtocols ----

  function InsertCap(sorted: seq<Cap>, c: Cap): (r: seq<Cap>)
    ensures multiset(r) == multiset(sorted) + multiset{c}
  {
    if sorted == [] || CapLeq(c, sorted[0]) then [c] + sorted
    else
      assert sorted == [sorted[0]] + sorted[1..];
      [sorted[0]] + InsertCap(sorted[1..], c)
  }

  lemma CapOrder(c: Cap, d: Cap, e: Cap)
    ensures CapLeq(c, d) || CapLeq(d, c)
    ensures CapLeq(c, d) && CapLeq(d, e) ==> CapLeq(c, e)
  {
    BeforeTotal(c.name, d.name);
    if Before(c.name, d.name) && Before(d.name, e.name) {
      BeforeTransitive(c.name, d.name, e.name);
    }
  }

  lemma {:induction false} InsertCapSorted(sorted: seq<Cap>, c: Cap)
    requires Sorted(sorted)
    ensures Sorted(InsertCap(sorted, c))
  {
    if sorted != [] {
      CapOrder(c, sorted[0], c);
      if CapLeq(c, sorted[0]) {
        forall d | d in sorted ensures CapLeq(c, d) {
          CapOrder(c, sorted[0], d);
          CapOrder(d, d, d);
        }
      } else {
        InsertCapSorted(sorted[1..], c);
        var rest := InsertCap(sorted[1..], c);
        forall d | d in rest ensures CapLeq(sorted[0], d) {
          assert d in multiset(rest);
        }
      }
    }
  }

  /** slices.SortFunc(caps, Cap.Cmp), in place. */
  method SortCaps(caps: array<Cap>)
    modifies caps
    ensures Sorted(caps[..]) && multiset(caps[..]) == multiset(old(caps[..]))
  {
    var sorted: seq<Cap> := [];
    for i := 0 to caps.Length
      invariant Sorted(sorted) && multiset(sorted) == multiset(caps[..i])
      invariant caps[..] == old(caps[..])
    {
      InsertCapSorted(sorted, caps[i]);
      sorted := InsertCap(sorted, caps[i]);
      assert caps[..i + 1] == caps[..i] + [caps[i]];
    }
    assert caps[..caps.Length] == caps[..];
    SameSize(sorted, caps[..]);
    forall i | 0 <= i < caps.Length {
      caps[i] := sorted[i];
    }
    assert caps[..] == sorted;
  }

  lemma SameSize(a: seq<Cap>, b: seq<Cap>)
    requires multiset(a) == multiset(b)
    ensures |a| == |b|
  {
    assert |multiset(a)| == |a| && |multiset(b)| == |b|;
  }

  /** Where the next slot for a name starts: a slot the name already has is given up first. */
  function StartFor(layout: Layout, offset: u64, name: string): u64 {
    if name in layout then Sub64(offset, layout[name].length) else offset
  }

  /** The layout and the next free offset after the capabilities `seen`. */
  ghost predicate LaidOut(layout: Layout, offset: u64, protocols: seq<Protocol>, seen: set<Cap>) {
    && IsLayout(layout, seen, protocols)
    && offset == Wrap64(BASE_PROTOCOL_LENGTH + TotalLength(layout))
  }

  /** The sums after a slot is put at the largest name. */
  lemma SumsAfterPlacing(layout: Layout, name: string, slot: Slot)
    requires forall n :: n in layout && n != name ==> Before(n, name)
    ensures var after, rest := layout[name := slot], layout.Keys - {name};
            && Smaller(after, name) == rest
            && LengthSum(after, rest) == LengthSum(layout, rest)
            && TotalLength(after) == LengthSum(layout, rest) + slot.length
            && TotalLength(layout) == LengthSum(layout, rest) + (if name in layout then layout[name].length else 0)
            && forall n :: n in rest ==> LengthSum(after, Smaller(after, n)) == LengthSum(layout, Smaller(layout, n))
  {
    var after, rest := layout[name := slot], layout.Keys - {name};
    BeforeTotal(name, name);
    assert Smaller(after, name) == rest && after.Keys - {name} == rest;
    LengthSumSame(layout, after, rest);
    LengthSumRemove(after, after.Keys, name);
    if name in layout {
      LengthSumRemove(layout, layout.Keys, name);
    } else {
      assert rest == layout.Keys;
    }
    forall n | n in rest
      ensures LengthSum(after, Smaller(after, n)) == LengthSum(layout, Smaller(layout, n))
    {
      BeforeTotal(n, name);
      assert Smaller(after, n) == Smaller(layout, n);
      LengthSumSame(layout, after, Smaller(layout, n));
    }
  }

  lemma OffsetsAfterPlacing(layout: Layout, offset: u64, name: string, version: nat, length: u64)
    requires offset == Wrap64(BASE_PROTOCOL_LENGTH + TotalLength(layout))
    requires forall n :: n in layout && n != name ==> Before(n, name)
    ensures var start := StartFor(layout, offset, name);
            var after := layout[name := Slot(version, length, start)];
            && start == Wrap64(BASE_PROTOCOL_LENGTH + LengthSum(after, Smaller(after, name)))
            && Add64(start, length) == Wrap64(BASE_PROTOCOL_LENGTH + TotalLength(after))
  {
    hide Wrap64, Add64, Sub64, LengthSum, Before, Smaller;
    SumsAfterPlacing(layout, name, Slot(version, length, StartFor(layout, offset, name)));
    var base := BASE_PROTOCOL_LENGTH + LengthSum(layout, layout.Keys - {name});
    if name in layout {
      WrapSub(base, layout[name].length);
    }
    WrapAdd(base, length);
  }

  lemma OthersPlaced(layout: Layout, protocols: seq<Protocol>, seen: set<Cap>, c: Cap, slot: Slot, n: string)
    requires n in layout && n != c.name && SlotRight(layout, seen, protocols, n)
    requires forall k :: k in layout && k != c.name ==> Before(k, c.name)
    ensures SlotRight(layout[c.name := slot], seen + {c}, protocols, n)
  {
    SumsAfterPlacing(layout, c.name, slot);
    hide LengthOf, Before, Smaller;
    hide Wrap64, LengthSum;
    var after := layout[c.name := slot];
    assert n in layout.Keys - {c.name} && after[n] == layout[n];
    assert LengthSum(after, Smaller(after, n)) == LengthSum(layout, Smaller(layout, n));
    assert Cap(n, after[n].version) in seen + {c};
  }

  lemma HighestPlaced(layout: Layout, seen: set<Cap>, c: Cap, slot: Slot)
    requires Highest(layout, seen) && slot.version == c.version
    requires forall d :: d in seen ==> CapLeq(d, c)
    ensures Highest(layout[c.name := slot], seen + {c})
  {
    BeforeTotal(c.name, c.name);
    hide Before;
  }

  lemma NewSlotRight(layout: Layout, offset: u64, protocols: seq<Protocol>, seen: set<Cap>, c: Cap)
    requires offset == Wrap64(BASE_PROTOCOL_LENGTH + TotalLength(layout))
    requires forall n :: n in layout && n != c.name ==> Before(n, c.name)
    ensures var slot := Slot(c.version, LengthOf(protocols, c), StartFor(layout, offset, c.name));
            SlotRight(layout[c.name := slot], seen + {c}, protocols, c.name)
  {
    hide Wrap64, Add64, StartFor, LengthSum, LengthOf, Before, Smaller, TotalLength;
    OffsetsAfterPlacing(layout, offset, c.name, c.version, LengthOf(protocols, c));
    assert Cap(c.name, c.version) == c;
  }

  /** Placing a capability that is not before any seen one. */
  lemma PlaceKeeps(layout: Layout, offset: u64, protocols: seq<Protocol>, seen: set<Cap>, c: Cap)
    requires LaidOut(layout, offset, protocols, seen)
    requires forall d :: d in seen ==> CapLeq(d, c)
    ensures var start, length := StartFor(layout, offset, c.name), LengthOf(protocols, c);
            LaidOut(layout[c.name := Slot(c.version, length, start)], Add64(start, length), protocols, seen + {c})
  {
    hide Wrap64, Add64, StartFor, LengthSum, LengthOf, Before, Smaller, TotalLength, SlotRight, CapLeq, Highest;
    var start, length := StartFor(layout, offset, c.name), LengthOf(protocols, c);
    var slot := Slot(c.version, length, start);
    var after := layout[c.name := slot];
    LargestSoFar(layout, protocols, seen, c);
    OffsetsAfterPlacing(layout, offset, c.name, c.version, length);
    HighestPlaced(layout, seen, c, slot);
    NewSlotRight(layout, offset, protocols, seen, c);
    forall n | n in after ensures SlotRight(after, seen + {c}, protocols, n) {
      if n != c.name {
        OthersPlaced(layout, protocols, seen, c, slot, n);
      }
    }
  }

  lemma LargestSoFar(layout: Layout, protocols: seq<Protocol>, seen: set<Cap>, c: Cap)
    requires IsLayout(layout, seen, protocols) && forall d :: d in seen ==> CapLeq(d, c)
    ensures forall n :: n in layout && n != c.name ==> Before(n, c.name)
  {
    hide Before;
    forall n | n in layout && n != c.name ensures Before(n, c.name) {
      assert SlotRight(layout, seen, protocols, n);
      assert CapLeq(Cap(n, layout[n].version), c);
    }
  }

  method FindProtocol(protocols: seq<Protocol>, c: Cap) returns (found: Option<Protocol>)
    ensures found.Some? <==> Offered(protocols, c)
    ensures found.Some? ==> found.value in protocols && Matches(found.value, c)
    ensures found.Some? ==> found.value.length == LengthOf(protocols, c)
  {
    for j := 0 to |protocols|
      invariant forall k :: 0 <= k < j ==> !Matches(protocols[k], c)
      invariant LengthOf(protocols, c) == LengthOf(protocols[j..], c)
    {
      if Matches(protocols[j], c) {
        return Some(protocols[j]);
      }
      assert protocols[j..][1..] == protocols[j + 1..];
    }
    found := None;
  }

  lemma SharedOneMore(protocols: seq<Protocol>, caps: seq<Cap>, i: nat)
    requires i < |caps|
    ensures Shared(protocols, caps[..i + 1])
         == if Offered(protocols, caps[i])
            then Shared(protocols, caps[..i]) + {caps[i]} else Shared(protocols, caps[..i])
  {
    assert caps[..i + 1] == caps[..i] + [caps[i]];
  }

  /** matchProtocols: sorts the announced capabilities in place and lays out the shared ones. */
  method MatchProtocols(protocols: seq<Protocol>, caps: array<Cap>) returns (layout: Layout)
    modifies caps
    ensures Sorted(caps[..]) && multiset(caps[..]) == multiset(old(caps[..]))
    ensures IsLayout(layout, Shared(protocols, old(caps[..])), protocols)
  {
    hide IsLayout, CapLeq, LengthOf;
    SortCaps(caps);
    var offset := BASE_PROTOCOL_LENGTH;
    layout := map[];
    NothingLaidOut(protocols);
    assert Shared(protocols, caps[..0]) == {};
    for i := 0 to caps.Length
      invariant LaidOut(layout, offset, protocols, Shared(protocols, caps[..i]))
      invariant Sorted(caps[..]) && multiset(caps[..]) == multiset(old(caps[..]))
    {
      var cap := caps[i];
      var proto := FindProtocol(protocols, cap);
      SharedOneMore(protocols, caps[..], i);
      assert caps[..][..i] == caps[..i] && caps[..][..i + 1] == caps[..i + 1];
      if proto.Some? {
        PlaceKeeps(layout, offset, protocols, Shared(protocols, caps[..i]), cap);
        if cap.name in layout {
          offset := Sub64(offset, layout[cap.name].length);
        }
        layout := layout[cap.name := Slot(proto.value.version, proto.value.length, offset)];
        offset := Add64(offset, proto.value.length);
      }
    }
    assert caps[..caps.Length] == caps[..];
    SharedOfPermutation(protocols, caps[..], old(caps[..]));
  }

  lemma NothingLaidOut(protocols: seq<Protocol>)
    ensures LaidOut(map[], BASE_PROTOCOL_LENGTH, protocols, {})
  {
  }

  lemma SharedOfPermutation(protocols: seq<Protocol>, a: seq<Cap>, b: seq<Cap>)
    requires multiset(a) == multiset(b)
    ensures Shared(protocols, a) == Shared(protocols, b)
  {
    forall c ensures c in a <==> c in b {
      assert c in multiset(a) <==> c in multiset(b);
    }
  }

  // ---- countMatchingProtocols ----

  function CountFor(protocols: seq<Protocol>, c: Cap): nat {
    if protocols == [] then 0
    else CountFor(protocols[..|protocols| - 1], c) + if Matches(protocols[|protocols| - 1], c) then 1 else 0
  }

  function CountMatching(protocols: seq<Protocol>, caps: seq<Cap>): nat {
    if caps == [] then 0 else CountMatching(protocols, caps[..|caps| - 1]) + CountFor(protocols, caps[|caps| - 1])
  }

  method CountMatchingProtocols(protocols: seq<Protocol>, caps: seq<Cap>) returns (n: nat)
    ensures n == CountMatching(protocols, caps)
  {
    n := 0;
    for i := 0 to |caps|
      invariant n == CountMatching(protocols, caps[..i])
    {
      ghost var before := n;
      for j := 0 to |protocols|
        invariant n == before + CountFor(protocols[..j], caps[i])
      {
        assert protocols[..j + 1][..j] == protocols[..j];
        if Matches(protocols[j], caps[i]) {
          n := n + 1;
        }
      }
      assert protocols[..|protocols|] == protocols && caps[..i + 1][..i] == caps[..i];
    }
    assert caps[..|caps|] == caps;
  }

  lemma {:induction false} CountForPositive(protocols: seq<Protocol>, c: Cap)
    ensures CountFor(protocols, c) > 0 <==> Offered(protocols, c)
  {
    if protocols != [] {
      var rest, last := protocols[..|protocols| - 1], protocols[|protocols| - 1];
      CountForPositive(rest, c);
      assert forall p :: p in protocols <==> p in rest || p == last;
    }
  }

  /** A peer is useless by count exactly when its layout would be empty. */
  lemma {:induction false} UselessMeansEmpty(protocols: seq<Protocol>, caps: seq<Cap>, layout: Layout)
    requires IsLayout(layout, Shared(protocols, caps), protocols)
    ensures CountMatching(protocols, caps) == 0 <==> layout == map[]
  {
    CountPositive(protocols, caps);
    if layout != map[] {
      var n :| n in layout;
      assert Cap(n, layout[n].version) in Shared(protocols, caps);
    }
    if Shared(protocols, caps) != {} {
      var c :| c in Shared(protocols, caps);
      assert c.name in layout;
    }
  }

  lemma {:induction false} CountPositive(protocols: seq<Protocol>, caps: seq<Cap>)
    ensures CountMatching(protocols, caps) > 0 <==> Shared(protocols, caps) != {}
  {
    if caps != [] {
      CountPositive(protocols, caps[..|caps| - 1]);
      CountForPositive(protocols, caps[|caps| - 1]);
      SharedOneMore(protocols, caps, |caps| - 1);
      assert caps[..|caps|] == caps;
      if Offered(protocols, caps[|caps| - 1]) {
        assert caps[|caps| - 1] in Shared(protocols, caps);
      }
    }
  }

  // ---- Messages ----

  datatype Delivery = Ping | Disconnect | Discarded | ToProtocol(name: string, code: u64) | OutOfRange

  /** getProto: the first owner met while going over the running protocols in any order. */
  method GetProto(layout: Layout, code: u64) returns (owner: Option<string>)
    ensures owner.Some? ==> Owns(layout, owner.value, code)
    ensures owner.None? ==> forall n :: !Owns(layout, n, code)
  {
    var unseen := layout.Keys;
    while unseen != {}
      invariant unseen <= layout.Keys
      invariant forall n :: n in layout && n !in unseen ==> !Owns(layout, n, code)
      decreases |unseen|
    {
      var n :| n in unseen;
      if Owns(layout, n, code) {
        return Some(n);
      }
      unseen := unseen - {n};
    }
    owner := None;
  }

  /** Peer.handle, and the ReadMsg of the protocol that a message reaches. */
  method Handle(layout: Layout, code: u64) returns (d: Delivery)
    ensures d == Ping <==> code == 2
    ensures d == Disconnect <==> code == 1
    ensures d == Discarded <==> code < BASE_PROTOCOL_LENGTH && code != 1 && code != 2
    ensures d.ToProtocol? <==> code >= BASE_PROTOCOL_LENGTH && exists n :: Owns(layout, n, code)
    ensures d.ToProtocol? ==> Owns(layout, d.name, code) && d.code == code - layout[d.name].offset
  {
    if code == 2 {
      return Ping;
    } else if code == 1 {
      return Disconnect;
    } else if code < BASE_PROTOCOL_LENGTH {
      return Discarded;
    }
    var owner := GetProto(layout, code);
    d := match owner
         case Some(n) => ToProtocol(n, Sub64(code, layout[n].offset))
         case None => OutOfRange;
  }

  /** protoRW.WriteMsg up to the wire: the code is refused or shifted. */
  function WireCode(slot: Slot, code: u64): Option<u64> {
    if code >= slot.length then None else Some(Add64(code, slot.offset))
  }

  /** A code that a protocol writes goes out above the base range, and at an end with layout b belongs to that
      protocol alone, as the code that was written. */
  ghost predicate Arrives(a: Layout, b: Layout, name: string, code: u64) {
    && name in a && name in b && WireCode(a[name], code).Some?
    && var wire := WireCode(a[name], code).value;
       && wire >= BASE_PROTOCOL_LENGTH
       && (forall n :: Owns(b, n, wire) <==> n == name)
       && Sub64(wire, b[name].offset) == code
  }

  lemma MessageFits(layout: Layout, shared: set<Cap>, protocols: seq<Protocol>, name: string, code: u64)
    requires IsLayout(layout, shared, protocols) && Fits(layout) && name in layout && code < layout[name].length
    ensures Arrives(layout, layout, name, code)
  {
    RangeOf(layout, shared, protocols, name);
    FitTiles(layout, shared, protocols, WireCode(layout[name], code).value);
    assert Owns(layout, name, WireCode(layout[name], code).value);
  }

  /** A code is refused exactly from the length on, and one that leaves is owned by the protocol that wrote it. */
  lemma RefusedOrOwned(layout: Layout, shared: set<Cap>, protocols: seq<Protocol>, name: string, code: u64)
    requires IsLayout(layout, shared, protocols) && name in layout
    ensures WireCode(layout[name], code).None? <==> code >= layout[name].length
    ensures Fits(layout) && WireCode(layout[name], code).Some? ==>
              Owns(layout, name, WireCode(layout[name], code).value)
  {
    if Fits(layout) && WireCode(layout[name], code).Some? {
      MessageFits(layout, shared, protocols, name, code);
    }
  }

  /** If the ranges of a set of names, closed under smaller ones, pass the end of the code space, one of them
      begins before it and ends at or after it. */
  lemma {:induction false} Crossing(layout: Layout, shared: set<Cap>, protocols: seq<Protocol>, names: set<string>)
    returns (name: string)
    requires IsLayout(layout, shared, protocols) && Closed(layout, names)
    requires BASE_PROTOCOL_LENGTH + LengthSum(layout, names) >= TWO64
    ensures name in layout && layout[name].offset + layout[name].length >= TWO64
    decreases |names|
  {
    assert names != {};
    name := LargestName(names);
    WithoutLargest(layout, names, name);
    OffsetOf(layout, shared, protocols, name);
    hide IsLayout, Closed, LengthSum, Before, Smaller;
    if BASE_PROTOCOL_LENGTH + LengthSum(layout, Smaller(layout, name)) >= TWO64 {
      name := Crossing(layout, shared, protocols, names - {name});
    }
  }

  /** The protocol's own first code goes out as a code that is not its own. */
  ghost predicate Unreachable(layout: Layout, name: string) {
    && name in layout && layout[name].length > 0
    && WireCode(layout[name], 0) == Some(layout[name].offset) && !Owns(layout, name, layout[name].offset)
  }

  /** Every code that a protocol may write arrives, exactly when the ranges fit 64 bits; otherwise a protocol
      whose range passes the end gets no message of its own first code. */
  lemma MessageArrives(layout: Layout, shared: set<Cap>, protocols: seq<Protocol>)
    requires IsLayout(layout, shared, protocols)
    ensures (forall name, code: u64 :: name in layout && code < layout[name].length ==>
               Arrives(layout, layout, name, code))
       <==> Fits(layout)
    ensures !Fits(layout) <==> exists name :: Unreachable(layout, name)
  {
    if Fits(layout) {
      forall name, code: u64 | name in layout && code < layout[name].length
        ensures Arrives(layout, layout, name, code)
      {
        MessageFits(layout, shared, protocols, name, code);
      }
      forall name ensures !Unreachable(layout, name) {
        assert name in layout && layout[name].length > 0 ==> Arrives(layout, layout, name, 0);
      }
    } else {
      AllClosed(layout);
      var name := Crossing(layout, shared, protocols, layout.Keys);
      assert Unreachable(layout, name);
      assert !Arrives(layout, layout, name, 0);
    }
  }

  const HALF: u64 := 0x8000_0000_0000_0000

  /** Two protocols that take half of the code space each: the second one's range ends at 16, so it owns no code. */
  lemma HalvesOverrun() returns (layout: Layout)
    ensures var protocols := [Protocol("a", 1, HALF), Protocol("b", 1, HALF)];
            && IsLayout(layout, Shared(protocols, [Cap("a", 1), Cap("b", 1)]), protocols)
            && !Fits(layout) && Unreachable(layout, "b") && forall code: u64 :: !Owns(layout, "b", code)
  {
    var protocols := [Protocol("a", 1, HALF), Protocol("b", 1, HALF)];
    layout := map["a" := Slot(1, HALF, 16), "b" := Slot(1, HALF, HALF + 16)];
    assert Before("a", "b") && !Before("b", "b") && !Before("a", "a") && !Before("b", "a");
    assert Smaller(layout, "a") == {} && Smaller(layout, "b") == {"a"};
    LengthSumRemove(layout, {"a"}, "a");
    LengthSumRemove(layout, {"a", "b"}, "b");
    assert {"a", "b"} - {"b"} == {"a"} && {"a"} - {"a"} == {} && layout.Keys == {"a", "b"};
    hide Before, LengthSum, Smaller;
    forall c | c in Shared(protocols, [Cap("a", 1), Cap("b", 1)]) ensures c == Cap("a", 1) || c == Cap("b", 1) {
    }
    assert Matches(protocols[0], Cap("a", 1)) && Matches(protocols[1], Cap("b", 1));
    assert LengthOf(protocols[1..], Cap("b", 1)) == HALF;
    assert !Matches(protocols[0], Cap("b", 1)) && LengthOf(protocols, Cap("b", 1)) == HALF;
    assert SlotRight(layout, Shared(protocols, [Cap("a", 1), Cap("b", 1)]), protocols, "a");
    assert SlotRight(layout, Shared(protocols, [Cap("a", 1), Cap("b", 1)]), protocols, "b");
  }

  /** End to end, between two peers that agree on lengths, each with its own computed layout: every code written
      at one end arrives at the other, exactly when the ranges fit 64 bits. */
  lemma MessageReachesTheOtherEnd(ours: seq<Protocol>, theirs: seq<Protocol>, ourCaps: seq<Cap>, theirCaps: seq<Cap>,
                                  a: Layout, b: Layout)
    requires Announces(ourCaps, ours) && Announces(theirCaps, theirs)
    requires forall p, q :: p in ours && q in theirs && p.name == q.name && p.version == q.version ==>
        p.length == q.length
    requires IsLayout(a, Shared(ours, theirCaps), ours) && IsLayout(b, Shared(theirs, ourCaps), theirs)
    ensures (forall name, code: u64 :: name in a && code < a[name].length ==> Arrives(a, b, name, code)) <==> Fits(a)
  {
    PeersAgree(ours, theirs, ourCaps, theirCaps, a, b);
    MessageArrives(a, Shared(ours, theirCaps), ours);
  }
}
