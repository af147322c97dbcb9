/** The kernel's timer list. Each entry stores the ticks between the timer before it
    and itself, so that a tick touches only the head. */
module Timers {

  datatype Timer = Timer(id: nat, expires: nat)

  function Ids(l: seq<Timer>): set<nat>
  {
    set i | 0 <= i < |l| :: l[i].id
  }

  ghost predicate Distinct(l: seq<Timer>)
  {
    forall i, j :: 0 <= i < j < |l| ==> l[i].id != l[j].id
  }

  /** What holds between calls: no timer twice, and none due already. */
  ghost predicate Wellformed(l: seq<Timer>)
  {
    Distinct(l) && (l != [] ==> l[0].expires > 0)
  }

  /** Ticks until the entry at `i` fires: the sum of the differences up to it. */
  ghost function Remaining(l: seq<Timer>, i: nat): nat
    requires i < |l|
  {
    if i == 0 then l[0].expires else Remaining(l, i - 1) + l[i].expires
  }

  /** The list as a map from timer to remaining ticks. */
  ghost function Due(l: seq<Timer>): map<nat, nat>
  {
    if l == [] then map[] else Later(Due(l[1..]), l[0].expires)[l[0].id := l[0].expires]
  }

  ghost function Later(m: map<nat, nat>, d: nat): map<nat, nat>
  {
    map x | x in m :: m[x] + d
  }

  // ------------------------------------------------------------ specifications

  /** Inserts after every timer due no later. */
  function Add(l: seq<Timer>, id: nat, t: nat): seq<Timer>
  {
    if l == [] then [Timer(id, t)]
    else if t < l[0].expires then [Timer(id, t), l[0].(expires := l[0].expires - t)] + l[1..]
    else [l[0]] + Add(l[1..], id, t - l[0].expires)
  }

  /** Removes a timer; the next one takes over its share of the wait. */
  function Del(l: seq<Timer>, id: nat): seq<Timer>
  {
    if l == [] then []
    else if l[0].id == id then
      if |l| > 1 then [l[1].(expires := l[1].expires + l[0].expires)] + l[2..] else []
    else [l[0]] + Del(l[1..], id)
  }

  /** The timers at the front that are due now, in order. */
  function Fired(l: seq<Timer>): seq<nat>
  {
    if l == [] || l[0].expires > 0 then [] else [l[0].id] + Fired(l[1..])
  }

  function Pending(l: seq<Timer>): seq<Timer>
  {
    if l == [] || l[0].expires > 0 then l else Pending(l[1..])
  }

  /** One tick passes for the head, and so for all. */
  function Elapse(l: seq<Timer>): seq<Timer>
    requires l != [] ==> l[0].expires > 0
  {
    if l == [] then [] else l[0 := l[0].(expires := l[0].expires - 1)]
  }

  // ------------------------------------------------------------------ the map

  lemma {:induction false} IdsCons(h: Timer, l: seq<Timer>)
    ensures Ids([h] + l) == Ids(l) + {h.id}
  {
    forall x
      ensures x in Ids([h] + l) <==> x in Ids(l) + {h.id}
    {
      if x in Ids(l) {
        var i :| 0 <= i < |l| && l[i].id == x;
        assert ([h] + l)[i + 1].id == x;
      }
      if x == h.id {
        assert ([h] + l)[0].id == x;
      }
    }
  }

  lemma {:induction false} DueIds(l: seq<Timer>)
    ensures Due(l).Keys == Ids(l)
  {
    if l != [] {
      DueIds(l[1..]);
      IdsCons(l[0], l[1..]);
      assert l == [l[0]] + l[1..];
    }
  }

  lemma {:induction false} DueAt(l: seq<Timer>, i: nat)
    requires Distinct(l) && i < |l|
    ensures l[i].id in Due(l) && Due(l)[l[i].id] == Remaining(l, i)
  {
    if i > 0 {
      DueAt(l[1..], i - 1);
      RemainingTail(l, i);
    }
  }

  lemma {:induction false} RemainingTail(l: seq<Timer>, i: nat)
    requires 0 < i < |l|
    ensures Remaining(l, i) == l[0].expires + Remaining(l[1..], i - 1)
  {
    if i > 1 {
      RemainingTail(l, i - 1);
    }
  }

  lemma {:induction false} RemainingGrows(l: seq<Timer>, i: nat, j: nat)
    requires i <= j < |l|
    ensures Remaining(l, i) <= Remaining(l, j)
  {
    if i < j {
      RemainingGrows(l, i, j - 1);
    }
  }

  // ------------------------------------------------------------------- adding

  lemma {:induction false} AddIds(l: seq<Timer>, id: nat, t: nat)
    ensures Ids(Add(l, id, t)) == Ids(l) + {id}
  {
    if l == [] {
      IdsCons(Timer(id, t), []);
    } else if t < l[0].expires {
      var h := l[0].(expires := l[0].expires - t);
      assert Add(l, id, t) == [Timer(id, t)] + ([h] + l[1..]) && l == [l[0]] + l[1..];
      IdsCons(Timer(id, t), [h] + l[1..]);
      IdsCons(h, l[1..]);
      IdsCons(l[0], l[1..]);
    } else {
      AddIds(l[1..], id, t - l[0].expires);
      IdsCons(l[0], Add(l[1..], id, t - l[0].expires));
      IdsCons(l[0], l[1..]);
      assert l == [l[0]] + l[1..];
    }
  }

  lemma {:induction false} Exchange(m: map<nat, nat>, a: nat, x: nat, b: nat, y: nat)
    requires a != b
    ensures m[a := x][b := y] == m[b := y][a := x]
  {
  }

  lemma {:induction false} LaterUpdate(m: map<nat, nat>, id: nat, v: nat, d: nat)
    ensures Later(m[id := v], d) == Later(m, d)[id := v + d]
  {
  }

  lemma {:induction false} LaterLater(m: map<nat, nat>, a: nat, b: nat)
    ensures Later(Later(m, a), b) == Later(m, a + b)
  {
  }

  lemma {:induction false} LaterWithout(m: map<nat, nat>, id: nat, d: nat)
    ensures Later(m - {id}, d) == Later(m, d) - {id}
  {
  }

  lemma {:induction false} DueCons(h: Timer, l: seq<Timer>)
    ensures Due([h] + l) == Later(Due(l), h.expires)[h.id := h.expires]
  {
    assert ([h] + l)[1..] == l;
  }

  /** Adding a timer sets its own entry of the map, and no other. */
  lemma {:induction false} AddDue(l: seq<Timer>, id: nat, t: nat)
    requires id !in Ids(l)
    ensures Due(Add(l, id, t)) == Due(l)[id := t]
  {
    if l == [] {
      assert [Timer(id, t)][1..] == [];
    } else {
      assert l == [l[0]] + l[1..];
      IdsCons(l[0], l[1..]);
      if t < l[0].expires {
        AddFront(l, id, t);
      } else {
        AddDue(l[1..], id, t - l[0].expires);
        AddBack(l[0], Add(l[1..], id, t - l[0].expires), Due(l[1..]), id, t);
      }
    }
  }

  lemma {:induction false} AddBack(h: Timer, r: seq<Timer>, m: map<nat, nat>, id: nat, t: nat)
    requires t >= h.expires && id != h.id && Due(r) == m[id := t - h.expires]
    ensures Due([h] + r) == Later(m, h.expires)[h.id := h.expires][id := t]
  {
    DueCons(h, r);
    LaterUpdate(m, id, t - h.expires, h.expires);
    Exchange(Later(m, h.expires), id, t, h.id, h.expires);
  }

  lemma {:induction false} AddFront(l: seq<Timer>, id: nat, t: nat)
    requires l != [] && t < l[0].expires && id != l[0].id
    ensures Due(Add(l, id, t)) == Due(l)[id := t]
  {
    var h := l[0].(expires := l[0].expires - t);
    assert Add(l, id, t) == [Timer(id, t)] + ([h] + l[1..]);
    DueCons(Timer(id, t), [h] + l[1..]);
    DueCons(h, l[1..]);
    LaterUpdate(Later(Due(l[1..]), h.expires), h.id, h.expires, t);
    LaterLater(Due(l[1..]), h.expires, t);
  }

  lemma {:induction false} AddDistinct(l: seq<Timer>, id: nat, t: nat)
    requires Distinct(l) && id !in Ids(l)
    ensures Distinct(Add(l, id, t))
  {
    if l != [] && t >= l[0].expires {
      var rest := Add(l[1..], id, t - l[0].expires);
      assert Ids(l[1..]) <= Ids(l) && l[0].id !in Ids(l[1..]) by {
        forall x | x in Ids(l[1..])
          ensures x in Ids(l) && x != l[0].id
        {
          var i :| 0 <= i < |l[1..]| && l[1..][i].id == x;
          assert l[i + 1].id == x;
        }
      }
      AddDistinct(l[1..], id, t - l[0].expires);
      AddIds(l[1..], id, t - l[0].expires);
      forall i | 0 <= i < |rest|
        ensures rest[i].id != l[0].id
      {
        assert rest[i].id in Ids(rest);
        assert l[0].id in Ids(l);
      }
    } else {
      forall i | 0 <= i < |l|
        ensures l[i].id != id
      {
        assert l[i].id in Ids(l);
      }
    }
  }

  /** The new timer comes after every timer due no later, before every other: timers
      due at the same tick keep the order in which they were added. */
  lemma {:induction false} AddPlace(l: seq<Timer>, id: nat, t: nat) returns (k: nat)
    ensures PlacedAt(l, id, t, k)
  {
    if l == [] {
      k := 0;
    } else if t < l[0].expires {
      k := 0;
      forall i | 0 <= i < |l|
        ensures Add(l, id, t)[i + 1].id == l[i].id && Remaining(l, i) > t
      {
        RemainingGrows(l, 0, i);
      }
    } else {
      k := AddPlace(l[1..], id, t - l[0].expires);
      AddPlaceNext(l, id, t, k);
      k := k + 1;
    }
  }

  /** `k` is the place of the new timer. */
  ghost predicate PlacedAt(l: seq<Timer>, id: nat, t: nat, k: nat)
  {
    && k <= |l| && |Add(l, id, t)| == |l| + 1 && Add(l, id, t)[k].id == id
    && (forall i :: 0 <= i < k ==> Add(l, id, t)[i] == l[i] && Remaining(l, i) <= t)
    && (forall i :: k <= i < |l| ==> Add(l, id, t)[i + 1].id == l[i].id && Remaining(l, i) > t)
  }

  lemma {:induction false} AddPlaceNext(l: seq<Timer>, id: nat, t: nat, k: nat)
    requires l != [] && t >= l[0].expires && PlacedAt(l[1..], id, t - l[0].expires, k)
    ensures PlacedAt(l, id, t, k + 1)
  {
    var r := Add(l[1..], id, t - l[0].expires);
    assert Add(l, id, t) == [l[0]] + r;
    forall i | 0 <= i < k + 1
      ensures Add(l, id, t)[i] == l[i] && Remaining(l, i) <= t
    {
      if i > 0 {
        RemainingTail(l, i);
        assert r[i - 1] == l[1..][i - 1] && Remaining(l[1..], i - 1) <= t - l[0].expires;
      }
    }
    forall i | k + 1 <= i < |l|
      ensures Add(l, id, t)[i + 1].id == l[i].id && Remaining(l, i) > t
    {
      RemainingTail(l, i);
      assert r[i].id == l[1..][i - 1].id && Remaining(l[1..], i - 1) > t - l[0].expires;
    }
  }

  lemma {:induction false} AddWellformed(l: seq<Timer>, id: nat, t: nat)
    requires Wellformed(l) && id !in Ids(l) && t > 0
    ensures Wellformed(Add(l, id, t)) && Due(Add(l, id, t)) == Due(l)[id := t]
  {
    AddDistinct(l, id, t);
    AddDue(l, id, t);
  }

  // ------------------------------------------------------------------ deleting

  lemma {:induction false} HeadOnce(l: seq<Timer>)
    requires l != [] && Distinct(l)
    ensures l[0].id !in Due(l[1..])
  {
    DueIds(l[1..]);
    forall i | 0 <= i < |l[1..]|
      ensures l[1..][i].id != l[0].id
    {
      assert l[1..][i] == l[i + 1];
    }
  }

  lemma {:induction false} DelDue(l: seq<Timer>, id: nat)
    requires Distinct(l)
    ensures Due(Del(l, id)) == Due(l) - {id}
  {
    if l == [] {
    } else if l[0].id == id {
      HeadOnce(l);
      DelFront(l[0], l[1..]);
      assert l == [l[0]] + l[1..];
    } else {
      DelDue(l[1..], id);
      DueCons(l[0], Del(l[1..], id));
      LaterWithout(Due(l[1..]), id, l[0].expires);
    }
  }

  lemma {:induction false} Forget(m: map<nat, nat>, id: nat, v: nat)
    requires id !in m
    ensures m[id := v] - {id} == m
  {
  }

  lemma {:induction false} LaterSum(m: map<nat, nat>, id: nat, v: nat, d: nat)
    ensures Later(Later(m, v)[id := v], d) == Later(m, v + d)[id := v + d]
  {
    LaterUpdate(Later(m, v), id, v, d);
    LaterLater(m, v, d);
  }

  lemma {:induction false} PassOn(a: Timer, d: nat, rest: seq<Timer>)
    ensures Due([a.(expires := a.expires + d)] + rest) == Later(Due([a] + rest), d)
  {
    DueCons(a, rest);
    DueCons(a.(expires := a.expires + d), rest);
    LaterSum(Due(rest), a.id, a.expires, d);
  }

  lemma {:induction false} DelFirst(h: Timer, l: seq<Timer>)
    ensures Del([h] + l, h.id) == if l == [] then [] else [l[0].(expires := l[0].expires + h.expires)] + l[1..]
  {
    if l != [] {
      assert ([h] + l)[2..] == l[1..] && ([h] + l)[1] == l[0];
    }
  }

  lemma {:induction false} DelFront(h: Timer, l: seq<Timer>)
    requires h.id !in Due(l)
    ensures Due(Del([h] + l, h.id)) == Due([h] + l) - {h.id}
  {
    DelFirst(h, l);
    assert Due([h] + l) - {h.id} == Later(Due(l), h.expires) by {
      DueCons(h, l);
      Forget(Later(Due(l), h.expires), h.id, h.expires);
    }
    if l != [] {
      PassOn(l[0], h.expires, l[1..]);
      assert l == [l[0]] + l[1..];
    }
  }

  lemma {:induction false} DelDistinct(l: seq<Timer>, id: nat)
    requires Distinct(l)
    ensures Distinct(Del(l, id)) && Ids(Del(l, id)) == Ids(l) - {id}
  {
    DelDue(l, id);
    DueIds(l);
    DueIds(Del(l, id));
    if l != [] && l[0].id != id {
      var r := Del(l[1..], id);
      DelDistinct(l[1..], id);
      forall i | 0 <= i < |r|
        ensures r[i].id != l[0].id
      {
        assert r[i].id in Ids(r);
        var j :| 0 <= j < |l[1..]| && l[1..][j].id == r[i].id;
        assert l[j + 1].id == r[i].id;
      }
    }
  }

  /** Deleting a timer leaves the others as they are. */
  lemma {:induction false} DelWellformed(l: seq<Timer>, id: nat)
    requires Wellformed(l)
    ensures Wellformed(Del(l, id)) && Due(Del(l, id)) == Due(l) - {id}
  {
    DelDistinct(l, id);
    DelDue(l, id);
  }

  // ------------------------------------------------------------------- ticking

  /** What a tick does to the map: the timers with one tick left go, the others have
      one less. */
  ghost function Ticked(m: map<nat, nat>): map<nat, nat>
  {
    map x | x in m && m[x] > 1 :: m[x] - 1
  }

  lemma {:induction false} PendingDue(l: seq<Timer>)
    requires Distinct(l)
    ensures Distinct(Pending(l)) && (Pending(l) != [] ==> Pending(l)[0].expires > 0)
    ensures Due(Pending(l)) == map x | x in Due(l) && Due(l)[x] > 0 :: Due(l)[x]
    ensures forall x :: x in Fired(l) <==> x in Due(l) && Due(l)[x] == 0
  {
    if l != [] && l[0].expires == 0 {
      PendingDue(l[1..]);
      HeadOnce(l);
    } else if l != [] {
      forall x | x in Due(l)
        ensures Due(l)[x] > 0
      {
      }
    }
  }

  lemma {:induction false} ElapseDue(l: seq<Timer>)
    requires Wellformed(l)
    ensures Distinct(Elapse(l)) && Due(Elapse(l)).Keys == Due(l).Keys
    ensures forall x :: x in Due(l) ==> Due(l)[x] > 0 && Due(Elapse(l))[x] == Due(l)[x] - 1
  {
    if l != [] {
      assert Elapse(l)[1..] == l[1..];
    }
  }

  /** A tick fires exactly the timers with one tick left and takes one from the rest. */
  lemma {:induction false} TickWellformed(l: seq<Timer>)
    requires Wellformed(l)
    ensures Wellformed(Pending(Elapse(l))) && Due(Pending(Elapse(l))) == Ticked(Due(l))
    ensures forall x :: x in Fired(Elapse(l)) <==> x in Due(l) && Due(l)[x] == 1
  {
    ElapseDue(l);
    PendingDue(Elapse(l));
  }

  // ------------------------------------------------------------------ whole runs

  datatype Event = Added(id: nat, ticks: nat) | Deleted(id: nat) | Tick

  /** The list after an event; adding a timer again or with no wait is not allowed. */
  function After(l: seq<Timer>, e: Event): seq<Timer>
    requires l != [] ==> l[0].expires > 0
  {
    match e
    case Added(id, t) => Add(l, id, t)
    case Deleted(id) => Del(l, id)
    case Tick => Pending(Elapse(l))
  }

  ghost predicate Allowed(l: seq<Timer>, e: Event)
  {
    e.Added? ==> e.ticks > 0 && e.id !in Ids(l)
  }

  lemma {:induction false} AfterWellformed(l: seq<Timer>, e: Event)
    requires Wellformed(l) && Allowed(l, e)
    ensures Wellformed(After(l, e))
  {
    match e
    case Added(id, t) => AddWellformed(l, id, t);
    case Deleted(id) => DelWellformed(l, id);
    case Tick => TickWellformed(l);
  }

  /** The run `es` from `l` is allowed and neither deletes `id` nor adds it again. */
  ghost predicate Leaves(l: seq<Timer>, es: seq<Event>, id: nat)
    decreases |es|
  {
    es != [] ==>
      && Wellformed(l) && Allowed(l, es[0])
      && es[0] != Deleted(id) && !(es[0].Added? && es[0].id == id)
      && Leaves(After(l, es[0]), es[1..], id)
  }

  function Ticks(es: seq<Event>): nat
  {
    if es == [] then 0 else (if es[0].Tick? then 1 else 0) + Ticks(es[1..])
  }

  ghost function Final(l: seq<Timer>, es: seq<Event>, id: nat): seq<Timer>
    requires Leaves(l, es, id)
    decreases |es|
  {
    if es == [] then l else Final(After(l, es[0]), es[1..], id)
  }

  /** A timer with `t` ticks to go is there with `t - n` left after any run with n < t
      ticks, whatever happens to the other timers. */
  lemma {:induction false} Waits(l: seq<Timer>, es: seq<Event>, id: nat)
    requires Wellformed(l) && Leaves(l, es, id) && id in Due(l) && Ticks(es) < Due(l)[id]
    ensures Wellformed(Final(l, es, id)) && id in Due(Final(l, es, id))
    ensures Due(Final(l, es, id))[id] == Due(l)[id] - Ticks(es)
    decreases |es|
  {
    if es != [] {
      var m := After(l, es[0]);
      AfterWellformed(l, es[0]);
      match es[0] {
        case Added(x, t) => AddWellformed(l, x, t);
        case Deleted(x) => DelWellformed(l, x);
        case Tick => TickWellformed(l);
      }
      Waits(m, es[1..], id);
    }
  }

  /** A timer added with `t` ticks fires at the t-th later tick and at no other: in a run
      with t - 1 ticks after it was added it has not fired, and the next tick fires it. */
  lemma {:induction false} FiresOnTime(l: seq<Timer>, id: nat, t: nat, es: seq<Event>)
    requires Wellformed(l) && id !in Ids(l) && t > 0
    requires Leaves(Add(l, id, t), es, id) && Ticks(es) == t - 1
    ensures var now := Final(Add(l, id, t), es, id);
            Wellformed(now) && id in Ids(now) && id in Fired(Elapse(now)) && id !in Ids(Pending(Elapse(now)))
  {
    AddWellformed(l, id, t);
    Waits(Add(l, id, t), es, id);
    var now := Final(Add(l, id, t), es, id);
    DueIds(now);
    TickWellformed(now);
    DueIds(Pending(Elapse(now)));
  }

  // --------------------------------------------------------------- the list itself

  function Sum(l: seq<Timer>, k: nat): nat
    requires k <= |l|
  {
    if k == 0 then 0 else Sum(l, k - 1) + l[k - 1].expires
  }

  lemma {:induction false} SumTail(l: seq<Timer>, k: nat)
    requires 0 < k <= |l|
    ensures Sum(l, k) == l[0].expires + Sum(l[1..], k - 1)
  {
    if k > 1 {
      SumTail(l, k - 1);
    }
  }

  function Insert(l: seq<Timer>, k: nat, id: nat, t: nat): seq<Timer>
    requires k <= |l| && (k < |l| ==> t <= l[k].expires)
  {
    l[..k] + [Timer(id, t)] + if k < |l| then [l[k].(expires := l[k].expires - t)] + l[k + 1..] else []
  }

  /** The place where the walk stops is where the new timer belongs. */
  lemma {:induction false} AddIs(l: seq<Timer>, k: nat, id: nat, t: nat)
    requires k <= |l| && Sum(l, k) <= t && (k < |l| ==> t - Sum(l, k) < l[k].expires)
    ensures Add(l, id, t) == Insert(l, k, id, t - Sum(l, k))
    decreases k
  {
    if k > 0 {
      SumTail(l, k);
      AddIs(l[1..], k - 1, id, t - l[0].expires);
      InsertCons(l, k, id, t - Sum(l, k));
    } else if l != [] {
      assert Add(l, id, t) == [Timer(id, t)] + ([l[0].(expires := l[0].expires - t)] + l[1..]);
    }
  }

  lemma {:induction false} InsertCons(l: seq<Timer>, k: nat, id: nat, t: nat)
    requires 0 < k <= |l| && (k < |l| ==> t <= l[k].expires)
    ensures Insert(l, k, id, t) == [l[0]] + Insert(l[1..], k - 1, id, t)
  {
    assert l[..k] == [l[0]] + l[1..][..k - 1];
    if k < |l| {
      assert l[k + 1..] == l[1..][k..];
    }
  }

  lemma {:induction false} InsertSteps(l: seq<Timer>, k: nat, id: nat, t: nat)
    requires k <= |l| && (k < |l| ==> t <= l[k].expires)
    ensures var m := if k < |l| then l[k := l[k].(expires := l[k].expires - t)] else l;
            m[..k] + [Timer(id, t)] + m[k..] == Insert(l, k, id, t)
  {
    if k < |l| {
      var h := l[k].(expires := l[k].expires - t);
      assert l[k := h][k..] == [h] + l[k + 1..];
      assert l[k := h][..k] == l[..k];
    }
  }

  lemma {:induction false} DelPast(l: seq<Timer>, k: nat, id: nat)
    requires k < |l| && l[k].id != id
    ensures l[..k] + Del(l[k..], id) == l[..k + 1] + Del(l[k + 1..], id)
  {
    assert l[k..][1..] == l[k + 1..];
    assert l[..k + 1] == l[..k] + [l[k]];
  }

  lemma {:induction false} DelHere(l: seq<Timer>, k: nat, id: nat)
    requires k <= |l| && (k < |l| ==> l[k].id == id)
    ensures var m := if k + 1 < |l| then l[k + 1 := l[k + 1].(expires := l[k + 1].expires + l[k].expires)] else l;
            l[..k] + Del(l[k..], id) == if k < |l| then m[..k] + m[k + 1..] else l
  {
    if k + 1 < |l| {
      var h := l[k + 1].(expires := l[k + 1].expires + l[k].expires);
      assert l[k + 1 := h][k + 1..] == [h] + l[k..][2..];
      assert l[k + 1 := h][..k] == l[..k];
    } else if k < |l| {
      assert l[k..] == [l[k]];
    }
  }

  /** The timer list changed in place, as add_timer, del_timer and run_timer_list do. */
  class TimerList {
    var list: seq<Timer>

    ghost predicate Valid()
      reads this
    {
      Wellformed(list)
    }

    constructor ()
      ensures Valid() && list == []
    {
      list := [];
    }

    method AddTimer(id: nat, expires: nat)
      requires Valid() && expires > 0 && id !in Ids(list)
      modifies this
      ensures Valid() && list == Add(old(list), id, expires)
    {
      ghost var l := list;
      assert Wellformed(Add(l, id, expires)) by {
        AddWellformed(l, id, expires);
      }
      var k, t := Place(expires);
      AddIs(l, k, id, expires);
      if k < |list| {
        list := list[k := list[k].(expires := list[k].expires - t)];
      }
      list := list[..k] + [Timer(id, t)] + list[k..];
      InsertSteps(l, k, id, t);
    }

    /** The walk of add_timer: past every timer due no later, taking off its share. */
    method Place(expires: nat) returns (k: nat, t: nat)
      ensures k <= |list| && Sum(list, k) + t == expires && (k < |list| ==> t < list[k].expires)
    {
      k, t := 0, expires;
      while k < |list| && t >= list[k].expires
        invariant k <= |list| && Sum(list, k) + t == expires
      {
        t := t - list[k].expires;
        k := k + 1;
      }
    }

    method DelTimer(id: nat)
      requires Valid()
      modifies this
      ensures Valid() && list == Del(old(list), id)
    {
      ghost var l := list;
      assert Wellformed(Del(l, id)) by {
        DelWellformed(l, id);
      }
      var k: nat := 0;
      while k < |list| && list[k].id != id
        invariant k <= |l| && list == l
        invariant l[..k] + Del(l[k..], id) == Del(l, id)
      {
        DelPast(l, k, id);
        k := k + 1;
      }
      DelHere(l, k, id);
      if k < |list| {
        if list[k].expires != 0 && k + 1 < |list| {
          list := list[k + 1 := list[k + 1].(expires := list[k + 1].expires + list[k].expires)];
        }
        list := list[..k] + list[k + 1..];
      }
    }

    /** One clock tick; `fired` are the processes to wake, in order. */
    method RunTimerList() returns (fired: seq<nat>)
      requires Valid()
      modifies this
      ensures Valid() && list == Pending(Elapse(old(list))) && fired == Fired(Elapse(old(list)))
      ensures Due(list) == Ticked(old(Due(list)))
      ensures forall x :: x in fired <==> x in old(Due(list)) && old(Due(list))[x] == 1
    {
      TickWellformed(list);
      fired := [];
      if list != [] {
        assert list[0].expires != 0;
        list := list[0 := list[0].(expires := list[0].expires - 1)];
        while list != [] && list[0].expires == 0
          invariant fired + Fired(list) == Fired(Elapse(old(list))) && Pending(list) == Pending(Elapse(old(list)))
          decreases |list|
        {
          fired := fired + [list[0].id];
          list := list[1..];
        }
      }
    }
  }
}
