/**
  Finding the device behind a guest physical address (src/lib/mem.c:47-113, 164-185, 211-280): two search
  trees of address ranges, in which overlapping ranges compare equal, and a one-entry cache per vCPU.

  A step may leave its tree in any shape with the right entries in order, so the results do not depend on how
  the red-black tree balances.
 */
module MmioCache {
  import opened Prelude

  /** struct mmio_rb_range; `end` is inclusive. Entries of a tree are disjoint, so values identify them. */
  datatype Range = Range(name: nat, base: nat, end: nat, immutable: bool)

  datatype Tree = Leaf | Node(left: Tree, range: Range, right: Tree)

  predicate Covers(r: Range, addr: nat) { r.base <= addr <= r.end }

  predicate Overlap(a: Range, b: Range) { a.base <= b.end && b.base <= a.end }

  function InOrder(t: Tree): (s: seq<Range>) {
    match t case Leaf => [] case Node(l, r, g) => InOrder(l) + [r] + InOrder(g)
  }

  /** Ascending and disjoint. */
  predicate Ordered(s: seq<Range>) {
    && (forall i :: 0 <= i < |s| ==> s[i].base <= s[i].end)
    && (forall i, j :: 0 <= i < j < |s| ==> s[i].end < s[j].base)
  }

  /** `mmio_rb_lookup`: RB_FIND of the range [addr, addr]. */
  function Find(t: Tree, addr: nat): (r: Option<Range>) {
    match t
    case Leaf => None
    case Node(l, e, g) => if addr < e.base then Find(l, addr) else if addr > e.end then Find(g, addr) else Some(e)
  }

  /** `mmio_rb_add`: RB_INSERT, with the range it collides with. */
  function Insert(t: Tree, n: Range): (r: (Tree, Option<Range>)) {
    match t
    case Leaf => (Node(Leaf, n, Leaf), None)
    case Node(l, e, g) =>
      if n.end < e.base then (var (l', o) := Insert(l, n); (Node(l', e, g), o))
      else if n.base > e.end then (var (g', o) := Insert(g, n); (Node(l, e, g'), o))
      else (t, Some(e))
  }

  /** The entries with one of them, given by its position, taken out. */
  function Without(s: seq<Range>, k: nat): (r: seq<Range>)
    requires k < |s|
    ensures |r| == |s| - 1 && forall i :: 0 <= i < |r| ==> r[i] == s[if i < k then i else i + 1]
  { s[..k] + s[k + 1..] }

  // ---------------------------------------------------------------- trees

  predicate Below(s: seq<Range>, limit: nat) { forall i :: 0 <= i < |s| ==> s[i].end < limit }

  predicate Above(s: seq<Range>, limit: nat) { forall i :: 0 <= i < |s| ==> limit < s[i].base }

  lemma SliceOrdered(s: seq<Range>, i: nat, j: nat)
    requires Ordered(s) && i <= j <= |s|
    ensures Ordered(s[i..j])
  {
  }

  lemma Unjoin(a: seq<Range>, e: Range, b: seq<Range>)
    requires Ordered(a + [e] + b)
    ensures Ordered(a) && Ordered(b) && e.base <= e.end && Below(a, e.base) && Above(b, e.end)
  {
    var s, n := a + [e] + b, |a|;
    assert s[..n] == a && s[n] == e && s[n + 1..] == b;
    SliceOrdered(s, 0, n);
    SliceOrdered(s, n + 1, |s|);
    forall i | 0 <= i < |a| ensures a[i].end < e.base { assert s[i] == a[i]; }
    forall i | 0 <= i < |b| ensures e.end < b[i].base { assert s[n + 1 + i] == b[i]; }
  }

  lemma Join(a: seq<Range>, e: Range, b: seq<Range>)
    requires Ordered(a) && Ordered(b) && e.base <= e.end && Below(a, e.base) && Above(b, e.end)
    ensures Ordered(a + [e] + b)
  {
    var s, n := a + [e] + b, |a|;
    forall i, j | 0 <= i < j < |s| ensures s[i].end < s[j].base {
      if i < n {
        assert s[i] == a[i] && a[i].end < e.base;
        if j > n { assert s[j] == b[j - n - 1]; } else if j < n { assert s[j] == a[j]; }
      } else {
        assert s[j] == b[j - n - 1];
        if i > n { assert s[i] == b[i - n - 1]; }
      }
    }
  }

  /** In an ordered tree the lookup is exact: what it finds covers the address, and it misses nothing. */
  lemma {:induction false} FindIs(t: Tree, addr: nat)
    requires Ordered(InOrder(t))
    ensures Find(t, addr).Some? ==> Find(t, addr).value in InOrder(t) && Covers(Find(t, addr).value, addr)
    ensures forall r :: r in InOrder(t) && Covers(r, addr) ==> Find(t, addr) == Some(r)
  {
    match t
    case Leaf =>
    case Node(l, e, g) =>
      Unjoin(InOrder(l), e, InOrder(g));
      FindIs(l, addr);
      FindIs(g, addr);
  }

  /** What inserting n did: refused it for an entry it meets, or put it in order at position k. */
  predicate Inserted(t: Tree, n: Range, k: nat) { Outcome(t, Insert(t, n), n, k) }

  predicate Outcome(t: Tree, r: (Tree, Option<Range>), n: Range, k: nat) {
    if r.1.Some? then r.0 == t && r.1.value in InOrder(t) && Overlap(r.1.value, n)
    else Placed(InOrder(t), InOrder(r.0), n, k)
  }

  predicate Placed(s: seq<Range>, r: seq<Range>, n: Range, k: nat) {
    k <= |s| && r == s[..k] + [n] + s[k..] && Below(s[..k], n.base) && Above(s[k..], n.end)
  }

  /** Insertion refuses exactly a range that meets one already there, and otherwise adds it in order. */
  lemma {:induction false} InsertIs(t: Tree, n: Range) returns (k: nat)
    requires Ordered(InOrder(t)) && n.base <= n.end
    ensures Inserted(t, n, k)
  {
    k := 0;
    match t
    case Leaf =>
      assert InOrder(Insert(t, n).0) == [n];
    case Node(l, e, g) =>
      Unjoin(InOrder(l), e, InOrder(g));
      if n.end < e.base {
        k := InsertIs(l, n);
        InsertedLeft(l, e, g, n, k);
      } else if n.base > e.end {
        var i := InsertIs(g, n);
        k := |InOrder(l)| + 1 + i;
        InsertedRight(l, e, g, n, i);
      }
  }

  lemma InsertedLeft(l: Tree, e: Range, g: Tree, n: Range, k: nat)
    requires n.end < e.base <= e.end && Above(InOrder(g), e.end) && Inserted(l, n, k)
    ensures Inserted(Node(l, e, g), n, k)
  {
    var (u, o) := Insert(l, n);
    assert Insert(Node(l, e, g), n) == (Node(u, e, g), o);
    LeftOutcome(l, u, o, e, g, n, k);
  }

  lemma LeftOutcome(l: Tree, u: Tree, o: Option<Range>, e: Range, g: Tree, n: Range, k: nat)
    requires n.end < e.base <= e.end && Above(InOrder(g), e.end) && Outcome(l, (u, o), n, k)
    ensures Outcome(Node(l, e, g), (Node(u, e, g), o), n, k)
  {
    if o.None? {
      var s, t := InOrder(Node(l, e, g)), InOrder(Node(u, e, g));
      InsertLeft(InOrder(l), InOrder(u), e, InOrder(g), s, t, k, n);
    }
  }

  lemma InsertedRight(l: Tree, e: Range, g: Tree, n: Range, i: nat)
    requires e.base <= e.end < n.base <= n.end && Below(InOrder(l), e.base) && Inserted(g, n, i)
    ensures Inserted(Node(l, e, g), n, |InOrder(l)| + 1 + i)
  {
    var (u, o) := Insert(g, n);
    assert Insert(Node(l, e, g), n) == (Node(l, e, u), o);
    RightOutcome(l, e, g, u, o, n, i);
  }

  lemma RightOutcome(l: Tree, e: Range, g: Tree, u: Tree, o: Option<Range>, n: Range, i: nat)
    requires e.base <= e.end < n.base <= n.end && Below(InOrder(l), e.base) && Outcome(g, (u, o), n, i)
    ensures Outcome(Node(l, e, g), (Node(l, e, u), o), n, |InOrder(l)| + 1 + i)
  {
    if o.None? {
      var s, t := InOrder(Node(l, e, g)), InOrder(Node(l, e, u));
      InsertRight(InOrder(l), e, InOrder(g), InOrder(u), s, t, i, n);
    } else {
      FoundRight(l, e, g, o.value);
    }
  }

  lemma FoundRight(l: Tree, e: Range, g: Tree, x: Range)
    requires x in InOrder(g)
    ensures x in InOrder(Node(l, e, g))
  {
    var a, b := InOrder(l), InOrder(g);
    var i :| 0 <= i < |b| && b[i] == x;
    assert InOrder(Node(l, e, g))[|a| + 1 + i] == x;
  }

  lemma InsertLeft(
    a: seq<Range>, r: seq<Range>, e: Range, b: seq<Range>, s: seq<Range>, t: seq<Range>, k: nat, n: Range)
    requires n.end < e.base <= e.end && Above(b, e.end) && Placed(a, r, n, k)
    requires s == a + [e] + b && t == r + [e] + b
    ensures Placed(s, t, n, k)
  {
    assert s[k..] == a[k..] + [e] + b && s[..k] == a[..k];
  }

  lemma InsertRight(
    a: seq<Range>, e: Range, b: seq<Range>, r: seq<Range>, s: seq<Range>, t: seq<Range>, i: nat, n: Range)
    requires e.base <= e.end < n.base && Below(a, e.base) && Placed(b, r, n, i)
    requires s == a + [e] + b && t == a + [e] + r
    ensures Placed(s, t, n, |a| + 1 + i)
  {
    var k := |a| + 1 + i;
    assert s[..k] == a + [e] + b[..i] && s[k..] == b[i..];
  }

  lemma InsertOrdered(s: seq<Range>, k: nat, n: Range)
    requires Ordered(s) && k <= |s| && n.base <= n.end && Below(s[..k], n.base) && Above(s[k..], n.end)
    ensures Ordered(s[..k] + [n] + s[k..])
  {
    Join(s[..k], n, s[k..]);
  }

  /** Rotations, all that balancing does, leave the entries and so every lookup as they were. */
  lemma RotationKeeps(a: Tree, x: Range, b: Tree, y: Range, c: Tree, addr: nat)
    requires Ordered(InOrder(Node(Node(a, x, b), y, c)))
    ensures InOrder(Node(Node(a, x, b), y, c)) == InOrder(Node(a, x, Node(b, y, c)))
    ensures Find(Node(Node(a, x, b), y, c), addr) == Find(Node(a, x, Node(b, y, c)), addr)
  {
    var l, r := Node(Node(a, x, b), y, c), Node(a, x, Node(b, y, c));
    assert InOrder(l) == InOrder(r);
    SameFind(l, r, addr);
  }

  /** A lookup depends on the entries only, not on the shape of the tree. */
  lemma SameFind(t: Tree, u: Tree, addr: nat)
    requires InOrder(t) == InOrder(u) && Ordered(InOrder(t))
    ensures Find(t, addr) == Find(u, addr)
  {
    FindIs(t, addr);
    FindIs(u, addr);
  }

  // ---------------------------------------------------------------- the lookup state

  /** mmio_rb_root, mmio_rb_fallback and mmio_hint. */
  datatype Mem = Mem(root: Tree, fallback: Tree, hints: seq<Option<Range>>)

  datatype Code = Ok | Exists | NoEntry

  /** The lookup without the cache: the root tree, then the fallback. */
  function Uncached(m: Mem, addr: nat): (r: Option<Range>) {
    var e := Find(m.root, addr);
    if e.Some? then e else Find(m.fallback, addr)
  }

  /** The lookup of `emulate_mem`, and the cache it leaves; only hits in the root tree are remembered. */
  function Access(m: Mem, vcpu: nat, addr: nat): (r: (Option<Range>, Mem))
    requires vcpu < |m.hints|
  {
    var h := m.hints[vcpu];
    if h.Some? && Covers(h.value, addr) then (h, m)
    else
      var e := Find(m.root, addr);
      if e.Some? then (e, m.(hints := m.hints[vcpu := e])) else (Find(m.fallback, addr), m)
  }

  /** `register_mem_int`: nothing is added, and no error reported, when the base is covered already. */
  function Registered(t: Tree, n: Range): (r: (Tree, Code)) {
    if Find(t, n.base).Some? then (t, Ok)
    else
      var (u, o) := Insert(t, n);
      if o.Some? then (t, Exists) else (u, Ok)
  }

  /** The assertions of `unregister_mem` about the entry at the base. */
  predicate Matches(e: Range, n: Range) { e.name == n.name && e.base == n.base && e.end == n.end && !e.immutable }

  /** The cache with one entry flushed. */
  function Flushed(hints: seq<Option<Range>>, e: Range): (r: seq<Option<Range>>)
    ensures |r| == |hints|
    ensures forall i :: 0 <= i < |hints| ==> r[i] == if hints[i] == Some(e) then None else hints[i]
  { seq(|hints|, i requires 0 <= i < |hints| => if hints[i] == Some(e) then None else hints[i]) }

  ghost predicate Inv(m: Mem) {
    && Ordered(InOrder(m.root)) && Ordered(InOrder(m.fallback))
    && forall i :: 0 <= i < |m.hints| && m.hints[i].Some? ==> m.hints[i].value in InOrder(m.root)
  }

  datatype Event =
    | Lookup(vcpu: nat, addr: nat)
    | Register(n: Range, fallback: bool, shape: Tree)
    | Unregister(n: Range, k: nat, shape: Tree)

  /** `shape` holds the entries of t but the k-th, e. */
  predicate TakenOut(t: Tree, e: Range, k: nat, shape: Tree) {
    k < |InOrder(t)| && InOrder(t)[k] == e && InOrder(shape) == Without(InOrder(t), k)
  }

  /** One step; `shape` is the tree as rebalanced. */
  ghost predicate Step(m: Mem, e: Event, r: Mem) {
    match e
    case Lookup(vcpu, addr) => vcpu < |m.hints| && r == Access(m, vcpu, addr).1
    case Register(n, fallback, shape) =>
      && n.base <= n.end && InOrder(shape) == InOrder(Registered(if fallback then m.fallback else m.root, n).0)
      && r == if fallback then m.(fallback := shape) else m.(root := shape)
    case Unregister(n, k, shape) =>
      var o := Find(m.root, n.base);
      if o.None? then r == m
      else
        && Matches(o.value, n) && TakenOut(m.root, o.value, k, shape)
        && r == m.(root := shape, hints := Flushed(m.hints, o.value))
  }

  // ---------------------------------------------------------------- registering

  /** Some entry meets the range. */
  ghost predicate Taken(s: seq<Range>, n: Range) { exists i :: 0 <= i < |s| && Overlap(s[i], n) }

  lemma FreeGap(s: seq<Range>, k: nat, n: Range)
    requires k <= |s| && Below(s[..k], n.base) && Above(s[k..], n.end)
    ensures !Taken(s, n)
  {
    forall i | 0 <= i < |s| ensures !Overlap(s[i], n) {
      if i < k { assert s[i] == s[..k][i]; } else { assert s[i] == s[k..][i - k]; }
    }
  }

  /**
    What registering a range comes to: it is added in its place exactly when it meets no entry; otherwise
    the tree stays, and the error is reported exactly when the base is not covered.
   */
  lemma RegisteredIs(t: Tree, n: Range) returns (k: nat)
    requires Ordered(InOrder(t)) && n.base <= n.end
    ensures Ordered(InOrder(Registered(t, n).0))
    ensures Taken(InOrder(t), n) ==>
      Registered(t, n) == (t, if Find(t, n.base).Some? then Ok else Exists)
    ensures !Taken(InOrder(t), n) ==>
      && Registered(t, n).1 == Ok
      && k <= |InOrder(t)| && InOrder(Registered(t, n).0) == InOrder(t)[..k] + [n] + InOrder(t)[k..]
  {
    k := 0;
    var s, o := InOrder(t), Find(t, n.base);
    FindIs(t, n.base);
    if o.Some? {
      var i :| 0 <= i < |s| && s[i] == o.value;
      assert Overlap(s[i], n);
    } else {
      k := InsertIs(t, n);
      if Insert(t, n).1.Some? {
        var i :| 0 <= i < |s| && s[i] == Insert(t, n).1.value;
        assert Overlap(s[i], n);
      } else {
        FreeGap(s, k, n);
        InsertOrdered(s, k, n);
      }
    }
  }

  lemma AddedIff(t: Tree, n: Range, x: Range)
    requires Ordered(InOrder(t)) && n.base <= n.end
    ensures x in InOrder(Registered(t, n).0) <==> x in InOrder(t) || (x == n && !Taken(InOrder(t), n))
  {
    var k := RegisteredIs(t, n);
    var s := InOrder(t);
    if !Taken(s, n) {
      assert s == s[..k] + s[k..];
      assert x in s[..k] + [n] + s[k..] <==> x in s[..k] || x == n || x in s[k..];
    }
  }

  /** Registering never drops an entry. */
  lemma RegisteredKeeps(t: Tree, n: Range, e: Range)
    requires Ordered(InOrder(t)) && n.base <= n.end && e in InOrder(t)
    ensures e in InOrder(Registered(t, n).0)
  {
    AddedIff(t, n, e);
  }

  /** A range that was added can be looked up at its base and taken out again, which restores the tree. */
  lemma RegisterUndone(t: Tree, n: Range, i: nat, shape: Tree)
    requires Ordered(InOrder(t)) && n.base <= n.end && !n.immutable && !Taken(InOrder(t), n)
    requires TakenOut(Registered(t, n).0, n, i, shape)
    ensures Find(Registered(t, n).0, n.base) == Some(n) && Matches(n, n) && InOrder(shape) == InOrder(t)
  {
    var k := RegisteredIs(t, n);
    var u := Registered(t, n).0;
    var r := InOrder(u);
    FindIs(u, n.base);
    assert r[k] == n;
    OnePlace(r, i, k);
    Restored(InOrder(t), k, n);
  }

  lemma OnePlace(r: seq<Range>, i: nat, k: nat)
    requires Ordered(r) && i < |r| && k < |r| && r[i] == r[k]
    ensures i == k
  {
    assert r[k].base <= r[k].end;
  }

  lemma Restored(s: seq<Range>, k: nat, n: Range)
    requires k <= |s|
    ensures Without(s[..k] + [n] + s[k..], k) == s
  {
  }

  /**
    A registration answered with success may have added nothing: unregistering the same range then trips the
    assertions exactly when the entry that covers its base is not that very range, free to be removed.
   */
  lemma SilentRegister(t: Tree, n: Range)
    requires Ordered(InOrder(t)) && n.base <= n.end && Find(t, n.base).Some?
    ensures Registered(t, n) == (t, Ok)
    ensures !Matches(Find(t, n.base).value, n) <==>
      forall i :: 0 <= i < |InOrder(t)| ==> !Matches(InOrder(t)[i], n)
  {
    var s, e := InOrder(t), Find(t, n.base).value;
    FindIs(t, n.base);
    var k :| 0 <= k < |s| && s[k] == e;
    forall i | 0 <= i < |s| && Matches(s[i], n) ensures s[i] == e {
      assert s[i] in s && Covers(s[i], n.base);
    }
  }

  /** Such a registration: [0, 4] over an entry [0, 9]. */
  lemma SilentRegisterHappens() returns (t: Tree, n: Range)
    ensures Ordered(InOrder(t)) && n.base <= n.end && Find(t, n.base).Some?
    ensures Registered(t, n) == (t, Ok) && !Matches(Find(t, n.base).value, n)
  {
    t, n := Node(Leaf, Range(0, 0, 9, false), Leaf), Range(1, 0, 4, false);
    assert InOrder(t) == [Range(0, 0, 9, false)];
  }

  // ---------------------------------------------------------------- every run

  lemma TakenOutOrdered(t: Tree, e: Range, k: nat, shape: Tree)
    requires Ordered(InOrder(t)) && TakenOut(t, e, k, shape)
    ensures Ordered(InOrder(shape))
    ensures forall r :: r in InOrder(t) && r != e ==> r in InOrder(shape)
  {
    var s := InOrder(t);
    WithoutOrdered(s, k);
    forall r | r in s && r != e ensures r in InOrder(shape) {
      StillThere(s, k, r);
    }
  }

  lemma StillThere(s: seq<Range>, k: nat, r: Range)
    requires k < |s| && r in s && r != s[k]
    ensures r in Without(s, k)
  {
    var i :| 0 <= i < |s| && s[i] == r;
    assert Without(s, k)[if i < k then i else i - 1] == r;
  }

  lemma WithoutOrdered(s: seq<Range>, k: nat)
    requires Ordered(s) && k < |s|
    ensures Ordered(Without(s, k))
  {
    var w := Without(s, k);
    forall i, j | 0 <= i < j < |w| ensures w[i].end < w[j].base {
      var i', j' := if i < k then i else i + 1, if j < k then j else j + 1;
      assert s[i'].end < s[j'].base;
    }
  }

  lemma LookupInv(m: Mem, vcpu: nat, addr: nat)
    requires Inv(m) && vcpu < |m.hints|
    ensures Inv(Access(m, vcpu, addr).1)
  {
    FindIs(m.root, addr);
  }

  lemma UnregisterInv(m: Mem, n: Range, k: nat, shape: Tree, r: Mem)
    requires Inv(m) && Step(m, Unregister(n, k, shape), r)
    ensures Inv(r)
  {
    var o := Find(m.root, n.base);
    if o.Some? {
      TakenOutOrdered(m.root, o.value, k, shape);
    }
  }

  lemma RegisterInv(m: Mem, n: Range, fallback: bool, shape: Tree, r: Mem)
    requires Inv(m) && Step(m, Register(n, fallback, shape), r)
    ensures Inv(r)
  {
    var t := if fallback then m.fallback else m.root;
    var _ := RegisteredIs(t, n);
    if !fallback {
      forall i | 0 <= i < |m.hints| && m.hints[i].Some? ensures m.hints[i].value in InOrder(shape) {
        RegisteredKeeps(t, n, m.hints[i].value);
      }
    }
  }

  lemma StepKeepsInv(m: Mem, e: Event, r: Mem)
    requires Inv(m) && Step(m, e, r)
    ensures Inv(r)
  {
    match e
    case Lookup(vcpu, addr) => LookupInv(m, vcpu, addr);
    case Register(n, fallback, shape) => RegisterInv(m, n, fallback, shape, r);
    case Unregister(n, k, shape) => UnregisterInv(m, n, k, shape, r);
  }

  /** A run passes through `states`, one per event after the first. */
  ghost predicate Run(states: seq<Mem>, events: seq<Event>) {
    && |states| == |events| + 1
    && forall i {:trigger events[i]} :: 0 <= i < |events| ==> Step(states[i], events[i], states[i + 1])
  }

  predicate Initial(m: Mem) {
    m.root == Leaf && m.fallback == Leaf && forall i :: 0 <= i < |m.hints| ==> m.hints[i] == None
  }

  lemma {:induction false} RunInv(states: seq<Mem>, events: seq<Event>, k: nat)
    requires Run(states, events) && Initial(states[0]) && k < |states|
    ensures Inv(states[k])
  {
    if k > 0 {
      RunInv(states, events, k - 1);
      StepKeepsInv(states[k - 1], events[k - 1], states[k]);
    }
  }

  /**
    After any run the cached lookup of every vCPU, at every address, finds what the uncached one does: the
    one root entry that covers the address, failing that the one fallback entry, failing that nothing.
   */
  lemma CacheExact(states: seq<Mem>, events: seq<Event>, k: nat, vcpu: nat, addr: nat)
    requires Run(states, events) && Initial(states[0]) && k < |states| && vcpu < |states[k].hints|
    ensures
      var m := states[k];
      var r := Access(m, vcpu, addr).0;
      && Ordered(InOrder(m.root)) && Ordered(InOrder(m.fallback))
      && r == Uncached(m, addr)
      && (forall e :: e in InOrder(m.root) && Covers(e, addr) ==> r == Some(e))
      && ((forall e :: e in InOrder(m.root) ==> !Covers(e, addr)) ==>
            && (forall e :: e in InOrder(m.fallback) && Covers(e, addr) ==> r == Some(e))
            && ((forall e :: e in InOrder(m.fallback) ==> !Covers(e, addr)) ==> r == None))
  {
    RunInv(states, events, k);
    FindIs(states[k].root, addr);
    FindIs(states[k].fallback, addr);
  }

  lemma RemovedIff(t: Tree, e: Range, k: nat, shape: Tree, x: Range)
    requires Ordered(InOrder(t)) && TakenOut(t, e, k, shape)
    ensures x in InOrder(shape) <==> x in InOrder(t) && x != e
  {
    var s := InOrder(t);
    if x in s && x != e { StillThere(s, k, x); }
    if x in InOrder(shape) {
      var i :| 0 <= i < |InOrder(shape)| && InOrder(shape)[i] == x;
      var j := if i < k then i else i + 1;
      assert s[j] == x;
      if j < k { assert s[j].end < s[k].base; } else { assert s[k].end < s[j].base; }
    }
  }

  /**
    The entries after each step: a registration that meets no entry adds its range to the tree it names, an
    unregistration takes out the root entry at its base, and nothing else adds or removes one.
   */
  lemma EntriesExact(m: Mem, e: Event, r: Mem, x: Range)
    requires Inv(m) && Step(m, e, r)
    ensures x in InOrder(r.root) <==>
      || (x in InOrder(m.root) && !(e.Unregister? && Find(m.root, e.n.base) == Some(x)))
      || (e.Register? && !e.fallback && x == e.n && !Taken(InOrder(m.root), e.n))
    ensures x in InOrder(r.fallback) <==>
      || x in InOrder(m.fallback)
      || (e.Register? && e.fallback && x == e.n && !Taken(InOrder(m.fallback), e.n))
  {
    match e
    case Lookup(_, _) =>
    case Register(n, fallback, _) => AddedIff(if fallback then m.fallback else m.root, n, x);
    case Unregister(n, k, shape) =>
      if Find(m.root, n.base).Some? { RemovedIff(m.root, Find(m.root, n.base).value, k, shape, x); }
  }

  /** The cache after each step: a root entry just found, nothing that was taken out, and else what it held. */
  lemma HintsExact(m: Mem, e: Event, r: Mem, vcpu: nat)
    requires Inv(m) && Step(m, e, r) && vcpu < |m.hints|
    ensures |r.hints| == |m.hints|
    ensures r.hints[vcpu] ==
      match e
      case Lookup(v, addr) => if v == vcpu && Find(m.root, addr).Some? then Find(m.root, addr) else m.hints[vcpu]
      case Register(_, _, _) => m.hints[vcpu]
      case Unregister(n, _, _) => if m.hints[vcpu] == Find(m.root, n.base) then None else m.hints[vcpu]
  {
    if e.Lookup? { FindIs(m.root, e.addr); }
  }

  /** What is unregistered was not immutable. */
  lemma Mutable(m: Mem, e: Event, r: Mem)
    requires Step(m, e, r)
    ensures e.Unregister? && Find(m.root, e.n.base).Some? ==> !Find(m.root, e.n.base).value.immutable
  {
  }

  lemma ImmutableStep(m: Mem, v: Event, r: Mem, e: Range)
    requires Inv(m) && Step(m, v, r) && e.immutable && e in InOrder(m.root)
    ensures e in InOrder(r.root)
  {
    EntriesExact(m, v, r, e);
    Mutable(m, v, r);
  }

  lemma ImmutableNext(states: seq<Mem>, events: seq<Event>, k: nat, e: Range)
    requires Run(states, events) && Initial(states[0]) && k + 1 < |states|
    requires e.immutable && e in InOrder(states[k].root)
    ensures e in InOrder(states[k + 1].root)
  {
    RunInv(states, events, k);
    ImmutableStep(states[k], events[k], states[k + 1], e);
  }

  /** An immutable entry of the root tree is there for good, as the unlocked handler call relies on. */
  lemma {:induction false} ImmutableStays(states: seq<Mem>, events: seq<Event>, j: nat, k: nat, e: Range)
    requires Run(states, events) && Initial(states[0]) && j <= k < |states|
    requires e.immutable && e in InOrder(states[j].root)
    ensures e in InOrder(states[k].root)
    decreases k
  {
    if j < k {
      ImmutableStays(states, events, j, k - 1, e);
      ImmutableNext(states, events, k - 1, e);
    }
  }

  // ---------------------------------------------------------------- updated in place

  /** Two trees, all of the first before all of the second, as one. */
  function Glue(l: Tree, g: Tree): (t: Tree)
    ensures InOrder(t) == InOrder(l) + InOrder(g)
  { match l case Leaf => g case Node(a, e, b) => Node(a, e, Glue(b, g)) }

  /** RB_REMOVE of the entry that covers an address, up to balancing. */
  function Delete(t: Tree, addr: nat): (r: Tree) {
    match t
    case Leaf => Leaf
    case Node(l, e, g) =>
      if addr < e.base then Node(Delete(l, addr), e, g)
      else if addr > e.end then Node(l, e, Delete(g, addr))
      else Glue(l, g)
  }

  lemma {:induction false} DeleteIs(t: Tree, addr: nat) returns (k: nat)
    requires Find(t, addr).Some?
    ensures TakenOut(t, Find(t, addr).value, k, Delete(t, addr))
  {
    match t
    case Node(l, e, g) =>
      var a, b := InOrder(l), InOrder(g);
      if addr < e.base {
        k := DeleteIs(l, addr);
        assert Without(a, k) + [e] + b == Without(a + [e] + b, k);
      } else if addr > e.end {
        var i := DeleteIs(g, addr);
        k := |a| + 1 + i;
        assert a + [e] + Without(b, i) == Without(a + [e] + b, k);
      } else {
        k := |a|;
        assert a + b == Without(a + [e] + b, k);
      }
  }

  class MmioMap {
    var root: Tree
    var fallback: Tree
    const hints: array<Option<Range>>

    /** `init_mem`, for a number of vCPUs. */
    constructor (vcpus: nat)
      ensures Initial(View()) && hints.Length == vcpus && fresh(hints)
    {
      root, fallback := Leaf, Leaf;
      hints := new Option<Range>[vcpus](_ => None);
    }

    ghost function View(): (m: Mem)
      reads this, hints
    { Mem(root, fallback, hints[..]) }

    /** The lookup of `emulate_mem`; None is its ESRCH. */
    method EmulateLookup(vcpu: nat, addr: nat) returns (entry: Option<Range>)
      requires vcpu < hints.Length
      modifies hints
      ensures (entry, View()) == Access(old(View()), vcpu, addr)
    {
      entry := hints[vcpu];
      if !(entry.Some? && Covers(entry.value, addr)) {
        entry := Find(root, addr);
        if entry.Some? {
          hints[vcpu] := entry;
        } else {
          entry := Find(fallback, addr);
        }
      }
    }

    /** `register_mem` and `register_mem_fallback`. */
    method RegisterMem(n: Range, toFallback: bool) returns (code: Code)
      modifies `root, `fallback
      ensures (if toFallback then fallback else root, code) == Registered(old(if toFallback then fallback else root), n)
      ensures if toFallback then root == old(root) else fallback == old(fallback)
      ensures n.base <= n.end ==>
        Step(old(View()), Register(n, toFallback, if toFallback then fallback else root), View())
    {
      var t := if toFallback then fallback else root;
      code := Ok;
      if Find(t, n.base).None? {
        var (u, overlap) := Insert(t, n);
        if overlap.Some? {
          code := Exists;
        } else if toFallback {
          fallback := u;
        } else {
          root := u;
        }
      }
    }

    /** `unregister_mem`, for a range its assertions accept. */
    method UnregisterMem(n: Range) returns (code: Code, ghost k: nat)
      requires Find(root, n.base).Some? ==> Matches(Find(root, n.base).value, n)
      modifies `root, hints
      ensures Step(old(View()), Unregister(n, k, root), View())
      ensures code == if Find(old(root), n.base).Some? then Ok else NoEntry
    {
      var o := Find(root, n.base);
      if o.None? {
        return NoEntry, 0;
      }
      k := DeleteIs(root, n.base);
      root := Delete(root, n.base);
      for i := 0 to hints.Length
        modifies hints
        invariant forall j :: 0 <= j < hints.Length ==>
          hints[j] == if j < i && old(hints[j]) == o then None else old(hints[j])
      {
        if hints[i] == o {
          hints[i] := None;
        }
      }
      assert hints[..] == Flushed(old(hints[..]), o.value);
      code := Ok;
    }
  }
}
