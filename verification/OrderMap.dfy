/** The order index of the OMS: an open-addressing hash table with linear probing whose
    deletion clears an entry and re-inserts the rest of its cluster.

    Pure definitions speak of the table as a sequence of entries; the three methods work in
    place on the array.  `home` is any hash function into the table, so nothing here depends
    on the quality of the hash. */
module OrderMap {
  import opened Bits

  const SIZE: nat := 8192

  type OrderId = nat
  type Pos = p: nat | p < SIZE

  datatype Entry = Entry(id: OrderId, slot: nat, occupied: bool)

  type Table = t: seq<Entry> | |t| == SIZE witness seq(SIZE, i => Entry(0, 0, false))

  /** Fibonacci hashing of a 64-bit id: multiply modulo 2^64 and keep the top 13 bits, which is a place in the table. */
  function FibonacciHash(id: OrderId): (h: Pos) {
    var product := id * 11400714819323198485 % 0x1_0000_0000_0000_0000;
    TopBits(product);
    Shr(product, 64 - 13)
  }

  lemma TopBits(x: nat)
    requires x < 0x1_0000_0000_0000_0000
    ensures Shr(x, 51) < SIZE
  {
    Pow2Of51();
    ShrIsDivision(x, 51);
  }

  /** How many steps a probe starting at `a` takes to reach `q`. */
  function Dist(a: Pos, q: Pos): (d: Pos) {
    if q >= a then q - a else q + SIZE - a
  }

  /** The position probed at step `i` of a search that starts at `h`. */
  function Probe(h: Pos, i: nat): (p: Pos)
    requires i < SIZE
    ensures Dist(h, p) == i
  {
    if h + i < SIZE then h + i else h + i - SIZE
  }

  /** The code masks the sum of hash position and step with SIZE - 1: that is the probe position. */
  lemma ProbeIsMasked(h: Pos, i: nat)
    requires i < SIZE
    ensures Probe(h, i) == And(h + i, SIZE - 1)
  {
    assert Pow2(13) == SIZE;
    MaskIsRemainder(h + i, 13);
  }

  /** No two occupied entries carry the same id. */
  ghost predicate Distinct(t: Table) {
    forall p: Pos, q: Pos :: t[p].occupied && t[q].occupied && t[p].id == t[q].id ==> p == q
  }

  /** No occupied entry has a hole between its hash position and its place. */
  ghost predicate NoGaps(home: OrderId -> Pos, t: Table) {
    forall p: Pos, q: Pos ::
      t[p].occupied && Dist(home(t[p].id), q) < Dist(home(t[p].id), p) ==> t[q].occupied
  }

  ghost predicate Legal(home: OrderId -> Pos, t: Table) {
    Distinct(t) && NoGaps(home, t)
  }

  ghost function Ids(t: Table): set<OrderId> {
    set p: Pos | t[p].occupied :: t[p].id
  }

  ghost function PosOf(t: Table, id: OrderId): (p: Pos)
    requires id in Ids(t)
    ensures t[p].occupied && t[p].id == id
  {
    var p: Pos :| t[p].occupied && t[p].id == id; p
  }

  /** The finite map the table stands for. */
  ghost function Contents(t: Table): map<OrderId, nat> {
    map id | id in Ids(t) :: t[PosOf(t, id)].slot
  }

  lemma ContentsAt(t: Table, p: Pos)
    requires Distinct(t) && t[p].occupied
    ensures t[p].id in Contents(t) && Contents(t)[t[p].id] == t[p].slot
  {
    assert t[p].id in Ids(t);
  }

  /** A map that agrees with every occupied entry and has no further ids is the contents. */
  lemma ContentsIs(t: Table, m: map<OrderId, nat>)
    requires forall p: Pos :: t[p].occupied ==> t[p].id in m && m[t[p].id] == t[p].slot
    requires m.Keys <= Ids(t)
    ensures Contents(t) == m
  {
    assert forall id :: id in Ids(t) ==> t[PosOf(t, id)].id in m;
  }

  /** Emptying a position forgets exactly its id. */
  lemma ContentsCleared(t: Table, p: Pos, e: Entry)
    requires Distinct(t) && t[p].occupied && !e.occupied
    ensures Distinct(t[p := e])
    ensures Contents(t[p := e]) == Contents(t) - {t[p].id}
  {
    var u: Table := t[p := e];
    forall id ensures id in Ids(u) <==> id in Ids(t) && id != t[p].id {
      if id in Ids(t) && id != t[p].id {
        assert u[PosOf(t, id)].id == id;
      }
      if id in Ids(u) {
        assert t[PosOf(u, id)].id == id;
      }
    }
    forall id | id in Ids(u) ensures Contents(u)[id] == Contents(t)[id] {
      ContentsAt(t, PosOf(u, id));
    }
  }

  /** Filling an empty position with a new id adds exactly that binding. */
  lemma ContentsFilled(t: Table, p: Pos, id: OrderId, slot: nat)
    requires Distinct(t) && !t[p].occupied && id !in Contents(t)
    ensures Distinct(t[p := Entry(id, slot, true)])
    ensures Contents(t[p := Entry(id, slot, true)]) == Contents(t)[id := slot]
  {
    var u: Table := t[p := Entry(id, slot, true)];
    forall q: Pos | t[q].occupied ensures t[q].id in Contents(t) && Contents(t)[t[q].id] == t[q].slot {
      ContentsAt(t, q);
    }
    forall k | k in Contents(t)[id := slot] ensures k in Ids(u) {
      var q: Pos := if k == id then p else PosOf(t, k);
      assert u[q].id == k;
    }
    ContentsIs(u, Contents(t)[id := slot]);
  }

  ghost function PrefixIds(t: Table, k: nat): set<OrderId>
    requires k <= SIZE
  {
    if k == 0 then {} else PrefixIds(t, k - 1) + {t[k - 1].id}
  }

  /** Pigeonhole: `k` occupied positions with distinct ids carry `k` ids. */
  lemma {:induction false} PrefixCount(t: Table, k: nat)
    requires k <= SIZE && Distinct(t) && forall p: Pos :: t[p].occupied
    ensures |PrefixIds(t, k)| == k && PrefixIds(t, k) <= Ids(t)
    ensures forall p: Pos :: t[p].id in PrefixIds(t, k) <==> p < k
  {
    if k > 0 {
      PrefixCount(t, k - 1);
      var last: Pos := k - 1;
      assert t[last].id !in PrefixIds(t, k - 1);
    }
  }

  lemma FullTable(t: Table)
    requires Distinct(t) && forall p: Pos :: t[p].occupied
    ensures |Contents(t)| == SIZE
  {
    PrefixCount(t, SIZE);
    assert Ids(t) == PrefixIds(t, SIZE);
    assert Contents(t).Keys == Ids(t);
  }

  /** A table with fewer bindings than positions has an empty position. */
  lemma HasHole(t: Table)
    requires Distinct(t) && |Contents(t)| < SIZE
    ensures exists e: Pos :: !t[e].occupied
  {
    if forall p: Pos :: t[p].occupied {
      FullTable(t);
    }
  }

  // ----- search -----

  /** A search stops at the first empty position or at the id. In a legal table it finds the
      id exactly when the table maps it, and `SIZE` means "not found". */
  method Find(home: OrderId -> Pos, table: array<Entry>, id: OrderId) returns (r: nat)
    requires table.Length == SIZE && Legal(home, table[..])
    ensures r <= SIZE
    ensures r == SIZE <==> id !in Contents(table[..])
    ensures r < SIZE ==> table[r].occupied && table[r].id == id && Contents(table[..])[id] == table[r].slot
  {
    var h := home(id);
    ghost var t: Table := table[..];
    for i := 0 to SIZE
      invariant forall q: Pos :: Dist(h, q) < i ==> t[q].occupied && t[q].id != id
    {
      var pos := Probe(h, i);
      if !table[pos].occupied {
        assert forall q: Pos :: t[q].occupied && t[q].id == id ==> Dist(h, pos) < Dist(h, q);
        return SIZE;
      }
      if table[pos].id == id {
        ContentsAt(t, pos);
        return pos;
      }
    }
    return SIZE;
  }

  // ----- insertion -----

  /** `at` is the empty position nearest to `h` in probe order. */
  ghost predicate FirstHole(t: Table, h: Pos, at: Pos) {
    !t[at].occupied && forall q: Pos :: Dist(h, q) < Dist(h, at) ==> t[q].occupied
  }

  /** Writes the binding into the first hole from the id's hash position; a full table is left
      as it is (and the binding is lost).  `at` names that hole, `SIZE` if there is none. */
  method Insert(home: OrderId -> Pos, table: array<Entry>, id: OrderId, slot: nat) returns (ghost at: nat)
    requires table.Length == SIZE
    modifies table
    ensures at <= SIZE
    ensures at == SIZE ==> table[..] == old(table[..]) && forall p: Pos :: table[p].occupied
    ensures at < SIZE ==> FirstHole(old(table[..]), home(id), at)
                          && table[..] == old(table[..])[at := Entry(id, slot, true)]
  {
    var h := home(id);
    for i := 0 to SIZE
      invariant table[..] == old(table[..])
      invariant forall q: Pos :: Dist(h, q) < i ==> table[q].occupied
    {
      var pos := Probe(h, i);
      if !table[pos].occupied {
        table[pos] := Entry(id, slot, true);
        return pos;
      }
    }
    return SIZE;
  }

  /** Inserting a new id into a legal table with a hole keeps it legal and adds the binding. */
  lemma InsertRefinesMap(home: OrderId -> Pos, t: Table, id: OrderId, slot: nat, at: Pos)
    requires Legal(home, t) && id !in Contents(t) && FirstHole(t, home(id), at)
    ensures Legal(home, t[at := Entry(id, slot, true)])
    ensures Contents(t[at := Entry(id, slot, true)]) == Contents(t)[id := slot]
  {
    ContentsFilled(t, at, id, slot);
  }

  // ----- deletion -----

  /** `q` lies on the cyclic stretch that starts `from` steps and ends before `upto` steps
      after `pos`. */
  predicate Within(pos: Pos, from: nat, q: Pos, upto: nat) {
    from <= Dist(pos, q) < upto
  }

  /** The state of a deletion whose cleared position is `pos`, whose cursor is `n` steps further
      and whose cluster originally ended at the hole `end`: entries not yet visited may have a gap,
      but only in the stretch already visited. */
  ghost predicate Repairing(home: OrderId -> Pos, t: Table, pos: Pos, n: nat, end: Pos) {
    && 1 <= n <= Dist(pos, end)
    && !t[end].occupied
    && (forall q: Pos :: Within(pos, n, q, Dist(pos, end)) ==> t[q].occupied)
    && forall p: Pos, q: Pos ::
         t[p].occupied && Dist(home(t[p].id), q) < Dist(home(t[p].id), p)
         ==> t[q].occupied || (Within(pos, n, p, Dist(pos, end)) && Within(pos, 0, q, n))
  }

  /** The hole that ends the cluster containing the occupied position `pos`. */
  lemma ClusterEnd(t: Table, pos: Pos, hole: Pos) returns (end: Pos)
    requires t[pos].occupied && !t[hole].occupied
    ensures !t[end].occupied
    ensures forall q: Pos :: Dist(pos, q) < Dist(pos, end) ==> t[q].occupied
  {
    var i := 0;
    while t[Probe(pos, i)].occupied
      invariant i <= Dist(pos, hole)
      invariant forall q: Pos :: Dist(pos, q) < i ==> t[q].occupied
      decreases SIZE - i
    {
      assert Dist(pos, Probe(pos, i)) == i;
      i := i + 1;
    }
    end := Probe(pos, i);
  }

  /** Clearing `pos` in a legal table starts the repair at the next position. */
  lemma RepairStarts(home: OrderId -> Pos, t: Table, pos: Pos, end: Pos, e: Entry)
    requires Legal(home, t) && t[pos].occupied && !e.occupied
    requires !t[end].occupied && forall q: Pos :: Dist(pos, q) < Dist(pos, end) ==> t[q].occupied
    ensures Repairing(home, t[pos := e], pos, 1, end)
  {
    var u: Table := t[pos := e];
    forall p: Pos, q: Pos |
      u[p].occupied && Dist(home(u[p].id), q) < Dist(home(u[p].id), p) && !u[q].occupied
      ensures Within(pos, 1, p, Dist(pos, end)) && Within(pos, 0, q, 1)
    {
      assert q == pos;  // otherwise the path of p would also cross the hole `end`
    }
  }

  /** A probe path that starts at `h`, passes `next` and ends at a place outside the stretch from `next`
      to `end` passes `end` too. */
  lemma PathCrossesEnd(pos: Pos, h: Pos, next: Pos, p: Pos, end: Pos)
    ensures Dist(h, next) < Dist(h, p) && Dist(pos, next) < Dist(pos, end)
            ==> p == end || Within(pos, Dist(pos, next), p, Dist(pos, end)) || Dist(h, end) < Dist(h, p)
  {
  }

  /** The re-inserted entry stays behind the cursor: it lands neither on the end of the cluster
      nor on a place still to be visited. */
  lemma ReinsertedBehindCursor(home: OrderId -> Pos, t: Table, pos: Pos, n: nat, end: Pos, next: Pos, e: Entry, at: Pos)
    requires Repairing(home, t, pos, n, end) && Dist(pos, next) == n && t[next].occupied
    requires !e.occupied && FirstHole(t[next := e], home(t[next].id), at)
    ensures at != end && !Within(pos, n + 1, at, Dist(pos, end)) && Dist(pos, next) < Dist(pos, end)
  {
    var h := home(t[next].id);
    assert Dist(h, at) <= Dist(h, next);
  }

  /** One turn of the repair loop: the entry under the cursor is cleared and re-inserted at its
      first hole `at`, and the cursor moves on. */
  lemma RepairStep(home: OrderId -> Pos, t: Table, pos: Pos, n: nat, end: Pos, next: Pos, e: Entry, at: Pos)
    requires Repairing(home, t, pos, n, end) && Dist(pos, next) == n && t[next].occupied
    requires !e.occupied && FirstHole(t[next := e], home(t[next].id), at)
    ensures Repairing(home, t[next := e][at := t[next]], pos, n + 1, end)
  {
    ReinsertedBehindCursor(home, t, pos, n, end, next, e, at);
    var l := Dist(pos, end);
    var u: Table := t[next := e][at := t[next]];
    forall p: Pos, q: Pos |
      u[p].occupied && Dist(home(u[p].id), q) < Dist(home(u[p].id), p) && !u[q].occupied
      ensures Within(pos, n + 1, p, l) && Within(pos, 0, q, n + 1)
    {
      assert p != at && p != next && u[p] == t[p];
      PathCrossesEnd(pos, home(t[p].id), next, p, end);
    }
  }

  /** A repair under way that stands for the map `want`. */
  ghost predicate Mending(home: OrderId -> Pos, t: Table, pos: Pos, n: nat, end: Pos, want: map<OrderId, nat>) {
    Repairing(home, t, pos, n, end) && Distinct(t) && Contents(t) == want
  }

  lemma MendingStep(home: OrderId -> Pos, t: Table, pos: Pos, n: nat, end: Pos, want: map<OrderId, nat>,
                    next: Pos, e: Entry, at: Pos)
    requires Mending(home, t, pos, n, end, want) && Dist(pos, next) == n && t[next].occupied
    requires !e.occupied && FirstHole(t[next := e], home(t[next].id), at)
    ensures Mending(home, t[next := e][at := Entry(t[next].id, t[next].slot, true)], pos, n + 1, end, want)
  {
    RepairStep(home, t, pos, n, end, next, e, at);
    ContentsAt(t, next);
    ContentsCleared(t, next, e);
    ContentsFilled(t[next := e], at, t[next].id, t[next].slot);
    assert t[next] == Entry(t[next].id, t[next].slot, true);
  }

  lemma MendingStarts(home: OrderId -> Pos, t: Table, pos: Pos, e: Entry, hole: Pos) returns (end: Pos)
    requires Legal(home, t) && t[pos].occupied && !e.occupied && !t[hole].occupied
    ensures Mending(home, t[pos := e], pos, 1, end, Contents(t) - {t[pos].id})
  {
    end := ClusterEnd(t, pos, hole);
    RepairStarts(home, t, pos, end, e);
    ContentsCleared(t, pos, e);
  }

  lemma MendingEnds(home: OrderId -> Pos, t: Table, pos: Pos, n: nat, end: Pos, want: map<OrderId, nat>, next: Pos)
    requires Mending(home, t, pos, n, end, want) && Dist(pos, next) == n && !t[next].occupied
    ensures Legal(home, t) && Contents(t) == want
  {
    assert !Within(pos, n, next, Dist(pos, end));
  }

  // ----- deletion from a full table -----

  /** The cleared position is the only hole, so the cluster has no other end and the cursor goes round the table.
      Entries move into the hole, which is then where they were; `n` is how far the cursor is beyond the hole, and the
      entries it passed since the last move have no gap. */
  ghost predicate Circling(home: OrderId -> Pos, t: Table, hole: Pos, n: nat, next: Pos, want: map<OrderId, nat>) {
    && Distinct(t) && Contents(t) == want && 1 <= n <= SIZE
    && (if n < SIZE then Dist(hole, next) == n else next == hole)
    && (forall q: Pos :: t[q].occupied <==> q != hole)
    && forall p: Pos :: Within(hole, 1, p, n) ==> Dist(home(t[p].id), p) <= Dist(home(t[p].id), hole)
  }

  lemma CirclingStarts(home: OrderId -> Pos, t: Table, pos: Pos, e: Entry)
    requires Legal(home, t) && !e.occupied && forall q: Pos :: t[q].occupied
    ensures Circling(home, t[pos := e], pos, 1, Probe(pos, 1), Contents(t) - {t[pos].id})
  {
    ContentsCleared(t, pos, e);
  }

  /** With the entry under the cursor taken out there are two holes to put it back into. */
  lemma TwoHoles(home: OrderId -> Pos, t: Table, hole: Pos, n: nat, want: map<OrderId, nat>, next: Pos, e: Entry,
                 at: Pos)
    requires Circling(home, t, hole, n, next, want) && t[next].occupied
    requires !e.occupied && FirstHole(t[next := e], home(t[next].id), at)
    ensures at == next || at == hole
    ensures at == next ==> t[next := e][at := Entry(t[next].id, t[next].slot, true)] == t
    ensures at == next ==> Dist(home(t[next].id), next) <= Dist(home(t[next].id), hole)
    ensures at == hole ==> Dist(home(t[next].id), hole) < Dist(home(t[next].id), next)
  {
    var u: Table := t[next := e];
    assert !u[hole].occupied && !u[next].occupied;
    assert t[next] == Entry(t[next].id, t[next].slot, true);
  }

  lemma PassedOver(home: OrderId -> Pos, t: Table, hole: Pos, n: nat, want: map<OrderId, nat>, next: Pos)
    requires Circling(home, t, hole, n, next, want) && t[next].occupied
    requires Dist(home(t[next].id), next) <= Dist(home(t[next].id), hole)
    ensures n < SIZE && Circling(home, t, hole, n + 1, Probe(next, 1), want)
  {
    forall p: Pos | Within(hole, 1, p, n + 1) ensures Dist(home(t[p].id), p) <= Dist(home(t[p].id), hole) {
      assert Within(hole, 1, p, n) || p == next;
    }
  }

  /** Taking an entry out and putting it back in at another place loses nothing. */
  lemma MoveKeepsContents(t: Table, next: Pos, e: Entry, hole: Pos)
    requires Distinct(t) && t[next].occupied && !t[hole].occupied && !e.occupied
    ensures var u: Table := t[next := e][hole := Entry(t[next].id, t[next].slot, true)];
            Distinct(u) && Contents(u) == Contents(t)
  {
    ContentsAt(t, next);
    ContentsCleared(t, next, e);
    ContentsFilled(t[next := e], hole, t[next].id, t[next].slot);
  }

  lemma MovedBack(home: OrderId -> Pos, t: Table, hole: Pos, n: nat, want: map<OrderId, nat>, next: Pos, e: Entry)
    requires Circling(home, t, hole, n, next, want) && t[next].occupied && !e.occupied
    ensures Circling(home, t[next := e][hole := Entry(t[next].id, t[next].slot, true)], next, 1, Probe(next, 1), want)
  {
    MoveKeepsContents(t, next, e, hole);
  }

  lemma CirclingEnds(home: OrderId -> Pos, t: Table, hole: Pos, n: nat, want: map<OrderId, nat>, next: Pos)
    requires Circling(home, t, hole, n, next, want) && !t[next].occupied
    ensures Legal(home, t) && Contents(t) == want
  {
    assert n == SIZE;
    assert forall p: Pos :: p != hole ==> Within(hole, 1, p, SIZE);
  }

  /** How far the entries are from their hash positions, in total. */
  ghost function Displacement(home: OrderId -> Pos, s: seq<Entry>): nat
    requires |s| <= SIZE
  {
    if s == [] then 0 else
    var p: Pos := |s| - 1;
    Displacement(home, s[..p]) + Displaced(home, s[p], p)
  }

  function Displaced(home: OrderId -> Pos, e: Entry, p: Pos): nat {
    if e.occupied then Dist(home(e.id), p) else 0
  }

  lemma {:induction false} DisplacementUpdate(home: OrderId -> Pos, s: seq<Entry>, p: Pos, e: Entry)
    requires p < |s| <= SIZE
    ensures Displacement(home, s[p := e]) == Displacement(home, s) - Displaced(home, s[p], p) + Displaced(home, e, p)
  {
    var k := |s| - 1;
    if p == k {
      assert s[p := e][..k] == s[..k];
    } else {
      assert s[p := e][..k] == s[..k][p := e];
      DisplacementUpdate(home, s[..k], p, e);
    }
  }

  lemma MovesAreFinite(home: OrderId -> Pos, t: Table, hole: Pos, next: Pos, e: Entry)
    requires t[next].occupied && !t[hole].occupied && !e.occupied
    requires Dist(home(t[next].id), hole) < Dist(home(t[next].id), next)
    ensures Displacement(home, t[next := e][hole := Entry(t[next].id, t[next].slot, true)]) < Displacement(home, t)
  {
    DisplacementUpdate(home, t, next, e);
    DisplacementUpdate(home, t[next := e], hole, Entry(t[next].id, t[next].slot, true));
  }

  // ----- the loop -----

  /** The body of the repair loop: takes the entry under the cursor out and puts it back in at its first hole. */
  method Reinsert(home: OrderId -> Pos, table: array<Entry>, next: Pos) returns (ghost e: Entry, ghost at: Pos)
    requires table.Length == SIZE && table[next].occupied
    modifies table
    ensures var t: Table := old(table[..]);
            && !e.occupied && FirstHole(t[next := e], home(t[next].id), at)
            && table[..] == t[next := e][at := Entry(t[next].id, t[next].slot, true)]
  {
    ghost var before := table[..];
    var tmp := table[next];
    e := Entry(0, tmp.slot, false);
    table[next] := Entry(0, tmp.slot, false);
    assert table[..] == before[next := e];
    ghost var hole := Insert(home, table, tmp.id, tmp.slot);
    assert hole < SIZE by { assert !before[next := e][next].occupied; }
    at := hole;
  }

  /** One turn in a full table: the cursor passes the entry or the entry moves into the hole. */
  lemma CirclingStep(home: OrderId -> Pos, t: Table, hole: Pos, n: nat, want: map<OrderId, nat>, next: Pos, e: Entry,
                     at: Pos) returns (hole': Pos, n': nat)
    requires Circling(home, t, hole, n, next, want) && t[next].occupied
    requires !e.occupied && FirstHole(t[next := e], home(t[next].id), at)
    ensures var t': Table := t[next := e][at := Entry(t[next].id, t[next].slot, true)];
            && Circling(home, t', hole', n', Probe(next, 1), want)
            && (Displacement(home, t') < Displacement(home, t)
                || (Displacement(home, t') == Displacement(home, t) && n' == n + 1))
  {
    TwoHoles(home, t, hole, n, want, next, e, at);
    if at == next {
      PassedOver(home, t, hole, n, want, next);
      hole', n' := hole, n + 1;
    } else {
      MovedBack(home, t, hole, n, want, next, e);
      MovesAreFinite(home, t, hole, next, e);
      hole', n' := next, 1;
    }
  }

  /** The repair loop, from the position after the cleared one up to the first hole.  With `end`, the hole that ended
      the cluster before the deletion, it terminates because it cannot pass it.  A full table has no such hole (`end`
      is `SIZE`); there it terminates because moves bring entries nearer to their hash positions. */
  method RepairCluster(home: OrderId -> Pos, table: array<Entry>, pos: Pos, ghost end: nat,
                       ghost want: map<OrderId, nat>)
    requires table.Length == SIZE && end <= SIZE
    requires end < SIZE ==> Mending(home, table[..], pos, 1, end, want)
    requires end == SIZE ==> Circling(home, table[..], pos, 1, Probe(pos, 1), want)
    modifies table
    ensures Legal(home, table[..]) && Contents(table[..]) == want
  {
    var next: Pos := Probe(pos, 1);
    ghost var n, hole := 1, pos;
    while table[next].occupied
      invariant end < SIZE ==> Dist(pos, next) == n && Mending(home, table[..], pos, n, end, want)
      invariant end == SIZE ==> Circling(home, table[..], hole, n, next, want)
      decreases if end < SIZE then 0 else Displacement(home, table[..]),
                if end < SIZE then Dist(pos, end) - n else SIZE - n
    {
      ghost var t := table[..];
      ghost var e, at := Reinsert(home, table, next);
      if end < SIZE {
        MendingStep(home, t, pos, n, end, want, next, e, at);
        n := n + 1;
      } else {
        hole, n := CirclingStep(home, t, hole, n, want, next, e, at);
      }
      next := Probe(next, 1);
    }
    if end < SIZE {
      MendingEnds(home, table[..], pos, n, end, want, next);
    } else {
      CirclingEnds(home, table[..], hole, n, want, next);
    }
  }

  /** Deletion refines map-minus-id: afterwards the table is legal, every other id keeps its slot and
      the removed id is gone.  An absent id changes nothing. */
  method Remove(home: OrderId -> Pos, table: array<Entry>, id: OrderId)
    requires table.Length == SIZE && Legal(home, table[..])
    modifies table
    ensures Legal(home, table[..])
    ensures Contents(table[..]) == old(Contents(table[..])) - {id}
    ensures id !in old(Contents(table[..])) ==> table[..] == old(table[..])
  {
    var pos := Find(home, table, id);
    if pos >= SIZE {
      return;
    }
    ghost var t, e := table[..], Entry(0, table[pos].slot, false);
    ghost var end: nat := SIZE;
    if hole: Pos :| !t[hole].occupied {
      end := MendingStarts(home, t, pos, e, hole);
    } else {
      CirclingStarts(home, t, pos, e);
    }
    table[pos] := Entry(0, table[pos].slot, false);
    assert table[..] == t[pos := e];
    RepairCluster(home, table, pos, end, old(Contents(table[..])) - {id});
  }
}
