/** Requests of many clients against one counter key: INCR and EXPIRE NX are separate steps. */
module FixedWindow {
  import opened Options
  import opened Counters

  /** An INCR that was executed: by whom, when, in which lifetime of the key, with which answer. */
  datatype Hit = Hit(client: nat, at: int, lifetime: nat, count: nat)

  /** `waiting` maps clients whose EXPIRE has not been executed to the lifetime they incremented;
      a client whose connection fails after INCR stays there for ever. */
  datatype World = World(
    limit: nat,
    window: nat,
    now: int,
    key: Option<Counter>,
    lifetime: nat,
    log: seq<Hit>,
    waiting: map<nat, nat>)

  datatype Action = Wait(dt: nat) | Incr(c: nat) | Expire(c: nat)

  predicate Enabled(w: World, a: Action) {
    match a
    case Wait(_) => true
    case Incr(c) => c !in w.waiting
    case Expire(c) => c in w.waiting
  }

  function Apply(w: World, a: Action): World
    requires Enabled(w, a)
  {
    match a
    case Wait(dt) => w.(now := w.now + dt)
    case Incr(c) =>
      var counter := IncrCounter(w.key, w.now);
      var lifetime := if Seen(w.key, w.now).None? then w.lifetime + 1 else w.lifetime;
      w.(key := Some(counter), lifetime := lifetime, waiting := w.waiting[c := lifetime],
         log := w.log + [Hit(c, w.now, lifetime, counter.count)])
    case Expire(c) =>
      w.(key := ExpireCounter(w.key, w.now, w.window), waiting := w.waiting - {c})
  }

  predicate Init(w: World) {
    w.key.None? && w.lifetime == 0 && w.log == [] && w.waiting == map[]
  }

  ghost predicate IsRun(ws: seq<World>, acts: seq<Action>) {
    && |ws| == |acts| + 1
    && Init(ws[0])
    && forall i :: 0 <= i < |acts| ==> Enabled(ws[i], acts[i]) && ws[i + 1] == Apply(ws[i], acts[i])
  }

  /** The request was admitted through Redis, provided its pipeline was answered at all. */
  predicate Admitted(w: World, i: int) {
    0 <= i < |w.log| && w.log[i].count <= w.limit
  }

  // ----- invariants

  /** Time and lifetimes only go forward, and counts go up within a lifetime. */
  ghost predicate LogInv(w: World) {
    && (forall i :: 0 <= i < |w.log| ==>
      w.log[i].at <= w.now && 1 <= w.log[i].lifetime <= w.lifetime && w.log[i].count >= 1)
    && (forall i, j :: 0 <= i < j < |w.log| ==> w.log[i].at <= w.log[j].at && w.log[i].lifetime <= w.log[j].lifetime)
    && (forall i, j :: 0 <= i < j < |w.log| && w.log[i].lifetime == w.log[j].lifetime ==>
      w.log[i].count < w.log[j].count)
    && (w.key.Some? ==>
          && w.lifetime >= 1 && w.key.value.count >= 1
          && forall i :: 0 <= i < |w.log| && w.log[i].lifetime == w.lifetime ==> w.log[i].count <= w.key.value.count)
  }

  predicate IsFirst(w: World, i: int, lifetime: nat) {
    0 <= i < |w.log| && w.log[i].lifetime == lifetime && w.log[i].count == 1
  }

  ghost predicate HasFirst(w: World, lifetime: nat) {
    exists i :: IsFirst(w, i, lifetime)
  }

  /** Every lifetime so far began with a hit. */
  ghost predicate FirstsInv(w: World) {
    forall l :: 1 <= l <= w.lifetime ==> HasFirst(w, l)
  }

  /** A lifetime lasts at least a window from its first hit. */
  ghost predicate SpacingInv(w: World) {
    && (forall i, j, l :: IsFirst(w, i, l) && 0 <= j < |w.log| && w.log[j].lifetime > l ==>
      w.log[j].at >= w.log[i].at + w.window)
    && (w.key.Some? && w.key.value.expiry.Some? ==>
          forall i :: IsFirst(w, i, w.lifetime) ==> w.key.value.expiry.value >= w.log[i].at + w.window)
    && (w.key.None? && w.lifetime >= 1 ==> forall i :: IsFirst(w, i, w.lifetime) ==> w.now >= w.log[i].at + w.window)
  }

  /** A present key that will never lapse by itself has a client that still owes it an EXPIRE. */
  ghost predicate OwedInv(w: World) {
    (w.key.Some? && w.key.value.expiry.None? ==> exists c :: c in w.waiting && w.waiting[c] == w.lifetime)
  }

  ghost predicate Inv(w: World) {
    LogInv(w) && FirstsInv(w) && SpacingInv(w) && OwedInv(w)
  }

  lemma LogInvKept(w: World, a: Action)
    requires LogInv(w) && Enabled(w, a)
    ensures LogInv(Apply(w, a))
  {
    if a.Incr? {
      IncrKeepsLogInv(w, Apply(w, a), a.c);
    }
  }

  lemma IncrKeepsLogInv(w: World, w': World, c: nat)
    requires LogInv(w) && Enabled(w, Incr(c)) && w' == Apply(w, Incr(c))
    ensures LogInv(w')
  {
  }

  lemma FirstsInvKept(w: World, a: Action)
    requires FirstsInv(w) && Enabled(w, a)
    ensures FirstsInv(Apply(w, a))
  {
    var w' := Apply(w, a);
    forall l | 1 <= l <= w'.lifetime ensures HasFirst(w', l) {
      if l <= w.lifetime {
        assert HasFirst(w, l);
        var i :| IsFirst(w, i, l);
        assert IsFirst(w', i, l);
      } else {
        assert IsFirst(w', |w.log|, l);
      }
    }
  }

  /** When the key is absent, a window has passed since the first hit of every lifetime. */
  lemma LapsedMeansSpaced(w: World, i: int, l: nat)
    requires LogInv(w) && FirstsInv(w) && SpacingInv(w) && OwedInv(w)
    requires Seen(w.key, w.now).None? && IsFirst(w, i, l)
    ensures w.now >= w.log[i].at + w.window
  {
    if l < w.lifetime {
      assert HasFirst(w, w.lifetime);
      var j :| IsFirst(w, j, w.lifetime);
    }
  }

  lemma OldFirsts(w: World, a: Action, i: int, l: nat)
    requires LogInv(w) && Enabled(w, a) && IsFirst(Apply(w, a), i, l)
    ensures IsFirst(w, i, l) || (i == |w.log| && a.Incr? && Seen(w.key, w.now).None? && l == w.lifetime + 1)
    ensures i < |w.log| ==> Apply(w, a).log[i] == w.log[i]
  {
  }

  lemma SpacingInvKept(w: World, a: Action)
    requires LogInv(w) && FirstsInv(w) && SpacingInv(w) && OwedInv(w) && Enabled(w, a)
    ensures SpacingInv(Apply(w, a))
  {
    var w' := Apply(w, a);
    forall i, j, l | IsFirst(w', i, l) && 0 <= j < |w'.log| && w'.log[j].lifetime > l
      ensures w'.log[j].at >= w'.log[i].at + w'.window
    {
      OldFirsts(w, a, i, l);
      if j < |w.log| {
        assert w'.log[j] == w.log[j];
      } else if Seen(w.key, w.now).None? {
        LapsedMeansSpaced(w, i, l);
      } else {
        assert HasFirst(w, w.lifetime);
        var k :| IsFirst(w, k, w.lifetime);
      }
    }
    forall i | IsFirst(w', i, w'.lifetime)
      ensures w'.key.Some? && w'.key.value.expiry.Some? ==> w'.key.value.expiry.value >= w'.log[i].at + w'.window
      ensures w'.key.None? ==> w'.now >= w'.log[i].at + w'.window
    {
      OldFirsts(w, a, i, w'.lifetime);
      if Seen(w.key, w.now).None? && IsFirst(w, i, w'.lifetime) {
        LapsedMeansSpaced(w, i, w'.lifetime);
      }
    }
  }

  lemma OwedInvKept(w: World, a: Action)
    requires OwedInv(w) && Enabled(w, a)
    ensures OwedInv(Apply(w, a))
  {
    var w' := Apply(w, a);
    if a.Incr? {
      assert a.c in w'.waiting && w'.waiting[a.c] == w'.lifetime;
    }
  }

  lemma InvKept(w: World, a: Action)
    requires Inv(w) && Enabled(w, a)
    ensures Inv(Apply(w, a))
  {
    LogInvKept(w, a);
    FirstsInvKept(w, a);
    SpacingInvKept(w, a);
    OwedInvKept(w, a);
  }

  lemma {:induction false} RunKeepsInv(ws: seq<World>, acts: seq<Action>, n: nat)
    requires IsRun(ws, acts) && n < |ws|
    ensures Inv(ws[n]) && ws[n].limit == ws[0].limit && ws[n].window == ws[0].window
  {
    if n == 0 {
    } else {
      RunKeepsInv(ws, acts, n - 1);
      InvKept(ws[n - 1], acts[n - 1]);
    }
  }

  // ----- the bound on any window

  /** The requests admitted through Redis during the half-open window that starts at `a`. */
  function InWindow(w: World, a: int): set<nat> {
    set i: nat | i < |w.log| && a <= w.log[i].at < a + w.window && w.log[i].count <= w.limit
  }

  function Range(lo: nat, hi: nat): (r: set<nat>)
    requires lo <= hi
    ensures |r| == hi - lo && forall x :: x in r <==> lo <= x < hi
    decreases hi - lo
  {
    if lo == hi then {} else Range(lo, hi - 1) + {hi - 1}
  }

  ghost predicate Injective(s: set<nat>, f: nat -> nat) {
    forall i, j :: i in s && j in s && f(i) == f(j) ==> i == j
  }

  /** An injection into lo..hi shows that a set has at most hi - lo elements. */
  lemma InjectionBounds(s: set<nat>, f: nat -> nat, lo: nat, hi: nat)
    requires Injective(s, f) && lo <= hi && forall i :: i in s ==> lo <= f(i) < hi
    ensures |s| <= hi - lo
  {
    var image := set i | i in s :: f(i);
    ImageSize(s, f);
    assert image <= Range(lo, hi);
    SubsetSize(image, Range(lo, hi));
  }

  lemma {:induction false} ImageSize(s: set<nat>, f: nat -> nat)
    requires Injective(s, f)
    ensures |set i | i in s :: f(i)| == |s|
  {
    var image := set i | i in s :: f(i);
    if s == {} {
      assert image == {};
    } else {
      var x :| x in s;
      ImageSize(s - {x}, f);
      var rest := set i | i in s - {x} :: f(i);
      assert image == rest + {f(x)};
      assert f(x) !in rest;
    }
  }

  lemma SubsetSize(a: set<int>, b: set<int>)
    requires a <= b
    ensures |a| <= |b|
  {
    assert b == a + (b - a);
  }

  /** Hits of different lifetimes are a window apart when the earlier one is its lifetime's first or
      another lifetime lies between them. */
  lemma LaterLifetimes(w: World, i: int, j: int)
    requires Inv(w) && 0 <= i < |w.log| && 0 <= j < |w.log| && w.log[i].lifetime < w.log[j].lifetime
    ensures w.log[i].count == 1 || w.log[j].lifetime > w.log[i].lifetime + 1 ==> w.log[j].at >= w.log[i].at + w.window
  {
    if w.log[i].count == 1 {
      assert IsFirst(w, i, w.log[i].lifetime);
    } else if w.log[j].lifetime > w.log[i].lifetime + 1 {
      var l := w.log[i].lifetime + 1;
      assert HasFirst(w, l);
      var k :| IsFirst(w, k, l);
      assert i < k;
    }
  }

  /** Position of a hit among the slots of two adjacent lifetimes, the earlier being `base`. */
  function Slot(w: World, base: nat, i: nat): nat {
    if i < |w.log| then (if w.log[i].lifetime == base then w.log[i].count else w.limit + w.log[i].count) else 0
  }

  /** Whatever the interleaving of INCR and EXPIRE NX, any half-open window admits at most
      2 * limit - 1 requests through Redis. */
  lemma WindowBound(w: World, a: int)
    requires Inv(w) && w.limit >= 1
    ensures |InWindow(w, a)| <= 2 * w.limit - 1
  {
    var s := InWindow(w, a);
    if s != {} {
      var lowest := EarliestLifetime(w, s);
      var base := w.log[lowest].lifetime;
      var slot := (i: nat) => Slot(w, base, i);
      forall i | i in s ensures w.log[i].lifetime in {base, base + 1} && 1 <= slot(i) <= 2 * w.limit {
        if w.log[i].lifetime > base { LaterLifetimes(w, lowest, i); }
      }
      assert Injective(s, slot);
      if late :| late in s && w.log[late].lifetime == base + 1 {
        forall i | i in s ensures slot(i) >= 2 {
          if w.log[i].lifetime == base { LaterLifetimes(w, i, late); }
        }
        InjectionBounds(s, slot, 2, 2 * w.limit + 1);
      } else {
        InjectionBounds(s, slot, 1, w.limit + 1);
      }
    }
  }

  lemma {:induction false} EarliestLifetime(w: World, s: set<nat>) returns (m: nat)
    requires s != {} && forall i :: i in s ==> i < |w.log|
    ensures m in s && forall i :: i in s ==> w.log[m].lifetime <= w.log[i].lifetime
  {
    m :| m in s;
    if s == {m} {
    } else {
      var rest := EarliestLifetime(w, s - {m});
      if w.log[rest].lifetime < w.log[m].lifetime {
        m := rest;
      }
    }
  }

  /** The requests one lifetime of the key admits. */
  function InLifetime(w: World, l: nat): set<nat> {
    set i: nat | i < |w.log| && w.log[i].lifetime == l && w.log[i].count <= w.limit
  }

  lemma LifetimeBound(w: World, l: nat)
    requires Inv(w)
    ensures |InLifetime(w, l)| <= w.limit
  {
    var slot := (i: nat) => Slot(w, l, i);
    assert Injective(InLifetime(w, l), slot);
    InjectionBounds(InLifetime(w, l), slot, 1, w.limit + 1);
  }

  /** Within one lifetime an expiry, once set, is neither moved nor removed except by lapsing. */
  lemma {:induction false} ExpiryIsSetOnce(ws: seq<World>, acts: seq<Action>, i: nat, j: nat)
    requires IsRun(ws, acts) && i <= j < |ws|
    requires ws[i].key.Some? && ws[i].key.value.expiry.Some?
    ensures ws[j].lifetime == ws[i].lifetime ==>
      || (ws[j].key.Some? && ws[j].key.value.expiry == ws[i].key.value.expiry)
      || (ws[j].key.None? && ws[j].now >= ws[i].key.value.expiry.value)
    ensures ws[j].lifetime > ws[i].lifetime ==> ws[j].now >= ws[i].key.value.expiry.value
    ensures ws[j].lifetime >= ws[i].lifetime
  {
    if i == j {
    } else {
      ExpiryIsSetOnce(ws, acts, i, j - 1);
      assert ws[j] == Apply(ws[j - 1], acts[j - 1]);
    }
  }

  /** If no connection failed, a key with no client under way always has an expiry. */
  lemma IdleKeysExpire(ws: seq<World>, acts: seq<Action>, n: nat)
    requires IsRun(ws, acts) && n < |ws| && ws[n].waiting == map[]
    ensures ws[n].key.Some? ==> ws[n].key.value.expiry.Some?
  {
    RunKeepsInv(ws, acts, n);
  }

  // ----- the bound is attained

  function Last<T>(s: seq<T>): T
    requires s != []
  {
    s[|s| - 1]
  }

  lemma ExtendRun(ws: seq<World>, acts: seq<Action>, a: Action) returns (ws': seq<World>, acts': seq<Action>)
    requires IsRun(ws, acts) && Enabled(Last(ws), a)
    ensures IsRun(ws', acts') && Last(ws') == Apply(Last(ws), a) && ws'[0] == ws[0]
  {
    ws', acts' := ws + [Apply(Last(ws), a)], acts + [a];
  }

  /** `n` more requests on a present key: clients c, c + 1, ... get the next counts. */
  predicate Grown(w: World, w': World, c: nat, n: nat, count: nat, lifetime: nat) {
    && w'.limit == w.limit && w'.window == w.window && w'.now == w.now && w'.lifetime == lifetime
    && w'.key.Some? && w'.key.value.count == count + n
    && |w'.log| == |w.log| + n && w.log <= w'.log
    && (forall i :: |w.log| <= i < |w.log| + n ==>
          w'.log[i] == Hit(c + i - |w.log|, w.now, lifetime, count + i - |w.log| + 1))
    && (forall d :: d in w'.waiting ==> d < c + n)
  }

  lemma {:induction false} Burst(ws: seq<World>, acts: seq<Action>, c: nat, n: nat)
      returns (ws': seq<World>, acts': seq<Action>)
    requires IsRun(ws, acts) && forall d :: d in Last(ws).waiting ==> d < c
    requires Seen(Last(ws).key, Last(ws).now).Some?
    ensures IsRun(ws', acts') && ws'[0] == ws[0]
    ensures Grown(Last(ws), Last(ws'), c, n, Last(ws).key.value.count, Last(ws).lifetime)
    ensures Last(ws').key.value.expiry == Last(ws).key.value.expiry
  {
    if n == 0 {
      ws', acts' := ws, acts;
    } else {
      ws', acts' := Burst(ws, acts, c, n - 1);
      var w := Last(ws');
      ws', acts' := ExtendRun(ws', acts', Incr(c + n - 1));
      assert Last(ws').log == w.log + [Hit(c + n - 1, w.now, w.lifetime, w.key.value.count + 1)];
    }
  }

  lemma FirstLifetime(limit: nat, window: nat) returns (ws: seq<World>, acts: seq<Action>)
    requires limit >= 1 && window >= 2
    ensures IsRun(ws, acts) && ws[0].limit == limit && ws[0].window == window
    ensures
      var w := Last(ws);
      && w.limit == limit && w.window == window && w.now == window - 1 && w.lifetime == 1
      && w.key == Some(Counter(limit, Some(window))) && |w.log| == limit
      && (forall i :: 1 <= i < limit ==> w.log[i].at == window - 1 && w.log[i].count == i + 1)
      && (w.log[0].at == 0 && forall d :: d in w.waiting ==> d < limit)
  {
    ws, acts := [World(limit, window, 0, None, 0, [], map[])], [];
    ws, acts := ExtendRun(ws, acts, Incr(0));
    ws, acts := ExtendRun(ws, acts, Expire(0));
    ws, acts := ExtendRun(ws, acts, Wait(window - 1));
    assert Last(ws).log == [Hit(0, 0, 1, 1)];
    ws, acts := Burst(ws, acts, 1, limit - 1);
  }

  lemma FullWindow(w: World, first: seq<Hit>, limit: nat, window: nat)
    requires limit >= 1 && window >= 2 && w.limit == limit && w.window == window
    requires |first| == limit && first <= w.log && |w.log| == 2 * limit && first[0].at == 0
    requires forall i :: 1 <= i < limit ==> first[i].at == window - 1 && first[i].count == i + 1
    requires forall i :: limit <= i < 2 * limit ==> w.log[i].at == window && w.log[i].count == i - limit + 1
    ensures |InWindow(w, 1)| == 2 * limit - 1
  {
    assert forall i :: 0 <= i < limit ==> w.log[i] == first[i];
    assert InWindow(w, 1) == Range(1, 2 * limit);
  }

  /** One request opens the window; the others of its lifetime come just before it lapses, and a full
      second lifetime right after. */
  lemma FullWindowRun(limit: nat, window: nat) returns (ws: seq<World>, acts: seq<Action>)
    requires limit >= 1 && window >= 2
    ensures IsRun(ws, acts) && ws[0].limit == limit && ws[0].window == window
    ensures |InWindow(Last(ws), 1)| == 2 * limit - 1
  {
    ws, acts := FirstLifetime(limit, window);
    var first := Last(ws).log;
    ws, acts := ExtendRun(ws, acts, Wait(1));
    ws, acts := ExtendRun(ws, acts, Incr(limit));
    var reopened := Last(ws).log;
    assert reopened == first + [Hit(limit, window, 2, 1)];
    ws, acts := Burst(ws, acts, limit + 1, limit - 1);
    assert Last(ws).log[limit] == reopened[limit];
    FullWindow(Last(ws), first, limit, window);
  }

  /** `b` bounds what any half-open window can admit, over all runs, exactly when b >= 2 * limit - 1. */
  lemma WindowBoundIsExact(limit: nat, window: nat, b: int)
    requires limit >= 1 && window >= 2
    ensures (forall ws: seq<World>, acts, a :: IsRun(ws, acts) && ws[0].limit == limit && ws[0].window == window ==>
      |InWindow(Last(ws), a)| <= b)
            <==> b >= 2 * limit - 1
  {
    if b >= 2 * limit - 1 {
      forall ws: seq<World>, acts, a | IsRun(ws, acts) && ws[0].limit == limit && ws[0].window == window
        ensures |InWindow(Last(ws), a)| <= b
      {
        RunKeepsInv(ws, acts, |ws| - 1);
        WindowBound(Last(ws), a);
      }
    } else {
      var ws, acts := FullWindowRun(limit, window);
    }
  }
}
