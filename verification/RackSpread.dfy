/** How `NetworkTopologyStrategy.make_token_replica_map` picks the replicas of one
    datacenter from the owners met on the clockwise walk through that datacenter. */
module RackSpread {
  import opened Seqs
  import opened Topology

  /** The variables of the walk: `replicas`, `replicas_remaining`, `replicas_this_dc`,
      `skipped_hosts` and `racks_placed`. */
  datatype Walk = Walk(replicas: seq<Host>, remaining: int, placed: nat, skipped: seq<Host>,
                       racks: set<Option<string>>)

  function Start(replicas: seq<Host>, rf: int): Walk {
    Walk(replicas, rf, 0, [], {})
  }

  predicate Done(s: Walk, hostCount: nat) {
    s.remaining == 0 || s.placed == hostCount
  }

  /** The inner loop over `skipped_hosts`, and the `del` after it. */
  function Flush(s: Walk): Walk
    requires s.remaining >= 0
  {
    var taken := Take(s.skipped, s.remaining);
    s.(replicas := s.replicas + taken, remaining := s.remaining - |taken|, skipped := [])
  }

  /** One turn of the loop over the datacenter's tokens; `break` makes the rest of the turns
      do nothing. */
  function Visit(s: Walk, h: Host, rackCount: nat, hostCount: nat): (s': Walk)
    requires s.remaining >= 0
    ensures s'.remaining >= 0
  {
    if Done(s, hostCount) || h in s.replicas then s
    else if h.rack in s.racks && |s.racks| < rackCount then s.(skipped := s.skipped + [h])
    else
      var s' := s.(replicas := s.replicas + [h], remaining := s.remaining - 1, placed := s.placed + 1,
                   racks := s.racks + {h.rack});
      if |s'.racks| == rackCount then Flush(s') else s'
  }

  function VisitAll(s: Walk, w: seq<Host>, rackCount: nat, hostCount: nat): (s': Walk)
    requires s.remaining >= 0
    ensures s'.remaining >= 0
  {
    if w == [] then s
    else Visit(VisitAll(s, w[..|w| - 1], rackCount, hostCount), w[|w| - 1], rackCount, hostCount)
  }

  function Racks(w: seq<Host>): set<Option<string>> {
    set h | h in w :: h.rack
  }

  /** The replicas that a datacenter contributes when its hosts are met in the order w. */
  function Share(w: seq<Host>, rf: nat): seq<Host> {
    VisitAll(Start([], rf), w, |Racks(w)|, |Elems(w)|).replicas
  }

  // --------------------------------------------------------------- the closed form

  /** The hosts that are the first of their rack. */
  function Firsts(w: seq<Host>): seq<Host> {
    if w == [] then []
    else
      var front, h := w[..|w| - 1], w[|w| - 1];
      if h.rack in Racks(front) then Firsts(front) else Firsts(front) + [h]
  }

  /** The tokens whose host is not the first of its rack, one entry per token: a host with
      several tokens is listed several times. */
  function Spares(w: seq<Host>): seq<Host> {
    if w == [] then []
    else
      var front, h := w[..|w| - 1], w[|w| - 1];
      if h.rack in Racks(front) && h !in Firsts(front) then Spares(front) + [h] else Spares(front)
  }

  /** How many tokens it takes to have met every rack. */
  function Cover(w: seq<Host>): (n: nat)
    ensures n <= |w|
  {
    if w == [] then 0
    else if w[|w| - 1].rack in Racks(w[..|w| - 1]) then Cover(w[..|w| - 1])
    else |w|
  }

  /** The hosts not yet in `seen`, each once, in order. */
  function Fresh(w: seq<Host>, seen: set<Host>): seq<Host> {
    if w == [] then []
    else
      var front, h := w[..|w| - 1], w[|w| - 1];
      if h in seen || h in front then Fresh(front, seen) else Fresh(front, seen) + [h]
  }

  /** The order in which the walk w would hand out replicas if none were ever enough: one
      host per rack, then the hosts passed over on the way, then the others as they come. */
  function Order(w: seq<Host>): seq<Host> {
    var c := Cover(w);
    Firsts(w[..c]) + Spares(w[..c]) + Fresh(w[c..], Elems(w[..c]))
  }

  /** The part of Order that the first k tokens decide. */
  function OrderAfter(w: seq<Host>, k: nat): seq<Host>
    requires k <= |w|
  {
    var c := Cover(w);
    if k < c then Firsts(w[..k])
    else Firsts(w[..c]) + Spares(w[..c]) + Fresh(w[c..k], Elems(w[..c]))
  }

  // ------------------------------------------------------------------------- facts

  lemma RacksAppend(w: seq<Host>, h: Host)
    ensures Racks(w + [h]) == Racks(w) + {h.rack}
  {
    var v := w + [h];
    assert forall x :: x in v <==> x in w || x == h;
  }

  lemma RacksMonotone(v: seq<Host>, w: seq<Host>)
    requires Elems(v) <= Elems(w)
    ensures Racks(v) <= Racks(w) && |Racks(v)| <= |Racks(w)|
  {
    forall h | h in v ensures h in w { assert h in Elems(v); }
    SubsetSize(Racks(v), Racks(w));
  }

  predicate DistinctRacks(w: seq<Host>) {
    forall i, j :: 0 <= i < j < |w| ==> w[i].rack != w[j].rack
  }

  lemma {:induction false} CountDistinctRacks(w: seq<Host>)
    requires DistinctRacks(w)
    ensures |Racks(w)| == |w|
  {
    if w != [] {
      var front, h := w[..|w| - 1], w[|w| - 1];
      CountDistinctRacks(front);
      assert w == front + [h];
      RacksAppend(front, h);
      assert forall x :: x in front ==> x.rack != h.rack;
    }
  }

  lemma {:induction false} FirstsFacts(w: seq<Host>)
    ensures Elems(Firsts(w)) <= Elems(w)
    ensures Racks(Firsts(w)) == Racks(w)
    ensures DistinctRacks(Firsts(w))
  {
    if w != [] {
      var front, h := w[..|w| - 1], w[|w| - 1];
      FirstsFacts(front);
      assert w == front + [h];
      RacksAppend(front, h);
      var f := Firsts(front);
      RacksAppend(f, h);
      ElemsAppend(f, h);
      ElemsAppend(front, h);
      assert forall x :: x in f ==> x.rack in Racks(f);
    }
  }

  lemma {:induction false} SparesFacts(w: seq<Host>)
    ensures Elems(Firsts(w)) !! Elems(Spares(w))
    ensures Elems(Firsts(w)) + Elems(Spares(w)) == Elems(w)
  {
    if w != [] {
      var front, h := w[..|w| - 1], w[|w| - 1];
      SparesFacts(front);
      assert w == front + [h];
      if h.rack !in Racks(front) {
        assert h !in front;
        assert h !in Elems(Firsts(front)) + Elems(Spares(front));
      }
    }
  }

  lemma {:induction false} FreshFacts(w: seq<Host>, seen: set<Host>)
    ensures Distinct(Fresh(w, seen)) && Elems(Fresh(w, seen)) == Elems(w) - seen
  {
    if w != [] {
      var front, h := w[..|w| - 1], w[|w| - 1];
      FreshFacts(front, seen);
      assert w == front + [h];
      ElemsAppend(front, h);
      ElemsAppend(Fresh(front, seen), h);
      assert h in Fresh(front, seen) ==> h in Elems(Fresh(front, seen));
    }
  }

  /** Before the cover some rack is missing, from it on none is, and the token that
      completes the cover brings a new rack. */
  lemma {:induction false} CoverFacts(w: seq<Host>)
    ensures Racks(w[..Cover(w)]) == Racks(w)
    ensures Cover(w) > 0 ==> w[Cover(w) - 1].rack !in Racks(w[..Cover(w) - 1])
  {
    hide Racks;
    if w != [] {
      var front, h := w[..|w| - 1], w[|w| - 1];
      assert w == front + [h];
      if h.rack in Racks(front) {
        RacksAppend(front, h);
        CoverFacts(front);
        assert w[..Cover(w)] == front[..Cover(w)];
        if Cover(w) > 0 { assert w[..Cover(w) - 1] == front[..Cover(w) - 1]; }
      } else {
        assert w[..Cover(w)] == w;
      }
    }
  }

  lemma BeforeCover(w: seq<Host>, k: nat)
    requires k < Cover(w)
    ensures |Racks(w[..k])| < |Racks(w)|
  {
    var c := Cover(w) - 1;
    CoverFacts(w);
    assert w[c].rack in Racks(w);
    PrefixElems(w, k, c);
    RacksMonotone(w[..k], w[..c]);
    RacksMonotone(w[..c], w);
    SubsetSize(Racks(w[..c]), Racks(w));
  }

  lemma FromCover(w: seq<Host>, k: nat)
    requires Cover(w) <= k <= |w|
    ensures Racks(w[..k]) == Racks(w)
  {
    CoverFacts(w);
    PrefixElems(w, Cover(w), k);
    RacksMonotone(w[..Cover(w)], w[..k]);
    RacksMonotone(w[..k], w);
  }

  lemma PrefixElems(w: seq<Host>, i: nat, j: nat)
    requires i <= j <= |w|
    ensures Elems(w[..i]) <= Elems(w[..j]) <= Elems(w)
  {
    assert w[..j][..i] == w[..i];
  }

  // -------------------------------------------------- the walk follows the closed form

  /** What the loop variables hold after k tokens. */
  ghost predicate Tracks(s: Walk, w: seq<Host>, k: nat, rf: nat)
    requires k <= |w|
  {
    var c := Cover(w);
    && s.replicas == Take(OrderAfter(w, k), rf)
    && s.remaining == rf - |s.replicas|
    && (s.remaining > 0 ==>
          && s.racks == Racks(w[..k])
          && s.skipped == (if k < c then Spares(w[..k]) else [])
          && s.placed == (if k < c then |Firsts(w[..k])|
                          else |Firsts(w[..c])| + |Fresh(w[c..k], Elems(w[..c]))|))
  }

  lemma LastOfPrefix(w: seq<Host>, i: nat, k: nat)
    requires i <= k < |w|
    ensures w[i..k + 1] == w[i..k] + [w[k]] && w[i..k + 1][..|w[i..k + 1]| - 1] == w[i..k]
  {
  }

  lemma OrderGrows(w: seq<Host>, k: nat)
    requires k < |w|
    ensures OrderAfter(w, k) <= OrderAfter(w, k + 1)
  {
    var c := Cover(w);
    LastOfPrefix(w, 0, k);
    if k + 1 == c {
      CoverFacts(w);
      assert w[..k + 1][..|w[..k + 1]| - 1] == w[..k];
    } else if k >= c {
      LastOfPrefix(w, c, k);
    }
  }

  lemma TakeOfLonger<T>(s: seq<T>, t: seq<T>, n: nat)
    requires s <= t && |s| >= n
    ensures Take(s, n) == Take(t, n)
  {
  }

  /** How the pieces of Order change with one more token. */
  lemma PrefixStep(w: seq<Host>, k: nat)
    requires k < |w|
    ensures Racks(w[..k + 1]) == Racks(w[..k]) + {w[k].rack}
    ensures Firsts(w[..k + 1]) == if w[k].rack in Racks(w[..k]) then Firsts(w[..k]) else Firsts(w[..k]) + [w[k]]
    ensures Spares(w[..k + 1]) == if w[k].rack in Racks(w[..k]) && w[k] !in Firsts(w[..k]) then Spares(w[..k]) + [w[k]]
                                  else Spares(w[..k])
  {
    assert w[..k + 1] == w[..k] + [w[k]] && w[..k + 1][..|w[..k + 1]| - 1] == w[..k];
    RacksAppend(w[..k], w[k]);
  }

  lemma FreshStep(w: seq<Host>, c: nat, k: nat, seen: set<Host>)
    requires c <= k < |w|
    ensures Fresh(w[c..k + 1], seen) ==
            if w[k] in seen || w[k] in w[c..k] then Fresh(w[c..k], seen) else Fresh(w[c..k], seen) + [w[k]]
  {
    LastOfPrefix(w, c, k);
  }

  /** Until every rack is met, the replicas are the first hosts of the racks met, so their
      number is below the number of hosts. */
  lemma FirstsBeforeCover(w: seq<Host>, k: nat)
    requires k < Cover(w)
    ensures |Firsts(w[..k])| < |Elems(w)|
    ensures |Racks(w[..k])| < |Racks(w)|
    ensures w[k] in Firsts(w[..k]) ==> w[k].rack in Racks(w[..k])
  {
    BeforeCover(w, k);
    FirstsFacts(w[..k]);
    CountDistinctRacks(Firsts(w[..k]));
    RackCountBound(w);
    assert w[k] in Firsts(w[..k]) ==> w[k].rack in Racks(Firsts(w[..k]));
  }

  lemma StepBeforeCover(s: Walk, w: seq<Host>, k: nat, rf: nat)
    requires k + 1 < Cover(w) && s.remaining > 0
    requires Tracks(s, w, k, rf)
    ensures Tracks(Visit(s, w[k], |Racks(w)|, |Elems(w)|), w, k + 1, rf)
  {
    hide Racks, Firsts, Spares, Elems, Cover, Fresh;
    PrefixStep(w, k);
    FirstsBeforeCover(w, k);
    FirstsBeforeCover(w, k + 1);
  }

  lemma RackCountBound(w: seq<Host>)
    ensures |Racks(w)| <= |Elems(w)|
  {
    FirstsFacts(w);
    CountDistinctRacks(Firsts(w));
    DistinctRacksDistinct(Firsts(w));
    SubsetSize(Elems(Firsts(w)), Elems(w));
  }

  lemma DistinctRacksDistinct(w: seq<Host>)
    requires DistinctRacks(w)
    ensures Distinct(w) && |Elems(w)| == |w|
  {
    forall i, j | 0 <= i < j < |w| ensures w[i] != w[j] { assert w[i].rack != w[j].rack; }
    DistinctCardinality(w);
  }

  lemma TakeAcross<T>(f: seq<T>, p: seq<T>, n: nat)
    requires |f| <= n
    ensures Take(f + p, n) == f + Take(p, n - |f|)
    ensures Take(f, n) == f
  {
  }

  /** The pieces of Order at the token that completes the cover. */
  lemma CoverStep(w: seq<Host>, k: nat)
    requires k + 1 == Cover(w)
    ensures w[k].rack !in Racks(w[..k]) && w[k] !in Firsts(w[..k])
    ensures Racks(w[..k]) + {w[k].rack} == Racks(w) == Racks(w[..k + 1])
    ensures OrderAfter(w, k) == Firsts(w[..k]) && |Firsts(w[..k])| < |Elems(w)|
    ensures OrderAfter(w, k + 1) == Firsts(w[..k]) + [w[k]] + Spares(w[..k])
    ensures |Firsts(w[..k + 1])| == |Firsts(w[..k])| + 1
    ensures Fresh(w[k + 1..k + 1], Elems(w[..k + 1])) == []
  {
    hide Racks, Firsts, Spares, Fresh, Elems, Cover;
    CoverFacts(w);
    PrefixStep(w, k);
    FirstsBeforeCover(w, k);
    assert w[k + 1..k + 1] == [];
    FreshNothing(Elems(w[..k + 1]));
  }

  lemma FreshNothing(seen: set<Host>)
    ensures Fresh([], seen) == []
  {
  }

  lemma StepAtCover(s: Walk, w: seq<Host>, k: nat, rf: nat)
    requires k + 1 == Cover(w) && s.remaining > 0
    requires Tracks(s, w, k, rf)
    ensures Tracks(Visit(s, w[k], |Racks(w)|, |Elems(w)|), w, k + 1, rf)
  {
    hide Racks, Firsts, Spares, Elems, Cover, Fresh, Take, OrderAfter;
    CoverStep(w, k);
    var f, h, p := Firsts(w[..k]), w[k], Spares(w[..k]);
    FirstsFit(w, k, rf);
    TakeAcross(f + [h], p, rf);
    TakeSize(p, rf - |f| - 1);
    var s' := Visit(s, h, |Racks(w)|, |Elems(w)|);
    assert s'.replicas == f + [h] + Take(p, rf - |f| - 1);
  }

  lemma TakeSize<T>(p: seq<T>, n: nat)
    ensures |Take(p, n)| <= n
  {
  }

  /** While places remain, nothing of the order so far has been cut off. */
  lemma FirstsFit(w: seq<Host>, k: nat, rf: nat)
    requires k <= |w| && |Take(OrderAfter(w, k), rf)| < rf
    ensures Take(OrderAfter(w, k), rf) == OrderAfter(w, k) && |OrderAfter(w, k)| < rf
  {
  }

  /** After the cover, the hosts handed out or waiting are the hosts met. */
  lemma OrderAfterElems(w: seq<Host>, k: nat)
    requires Cover(w) <= k < |w|
    ensures w[k] in OrderAfter(w, k) <==> w[k] in Elems(w[..Cover(w)]) || w[k] in w[Cover(w)..k]
  {
    var c := Cover(w);
    var f, p, n := Firsts(w[..c]), Spares(w[..c]), Fresh(w[c..k], Elems(w[..c]));
    SparesFacts(w[..c]);
    FreshFacts(w[c..k], Elems(w[..c]));
    hide Firsts, Spares, Fresh, Cover;
    assert w[k] in f + p + n <==> w[k] in Elems(f) || w[k] in Elems(p) || w[k] in Elems(n);
    assert w[k] in w[c..k] <==> w[k] in Elems(w[c..k]);
  }

  lemma StepAfterCover(s: Walk, w: seq<Host>, k: nat, rf: nat)
    requires Cover(w) <= k < |w| && s.remaining > 0
    requires Tracks(s, w, k, rf)
    ensures Tracks(Visit(s, w[k], |Racks(w)|, |Elems(w)|), w, k + 1, rf)
  {
    hide Racks, Firsts, Spares, Elems, Cover, Fresh, OrderAfter;
    OrderAfterStep(w, k);
    FirstsFit(w, k, rf);
    var s' := Visit(s, w[k], |Racks(w)|, |Elems(w)|);
    if w[k] in OrderAfter(w, k) {
      assert s' == s;
    } else {
      assert s.placed != |Elems(w)| by { if s.placed == |Elems(w)| { AllPlaced(w, k); } }
      assert s'.replicas == s.replicas + [w[k]];
    }
  }

  lemma OrderAfterStep(w: seq<Host>, k: nat)
    requires Cover(w) <= k < |w|
    ensures w[k].rack in Racks(w) && Racks(w[..k]) == Racks(w) == Racks(w[..k + 1])
    ensures w[k] in OrderAfter(w, k) <==> w[k] in Elems(w[..Cover(w)]) || w[k] in w[Cover(w)..k]
    ensures OrderAfter(w, k + 1) == if w[k] in OrderAfter(w, k) then OrderAfter(w, k) else OrderAfter(w, k) + [w[k]]
    ensures |Fresh(w[Cover(w)..k + 1], Elems(w[..Cover(w)]))| ==
            |Fresh(w[Cover(w)..k], Elems(w[..Cover(w)]))| + if w[k] in OrderAfter(w, k) then 0 else 1
  {
    hide Racks, Firsts, Spares, Elems, Cover, Fresh;
    RackIsMet(w, k);
    FromCover(w, k);
    FromCover(w, k + 1);
    FreshStep(w, Cover(w), k, Elems(w[..Cover(w)]));
    OrderAfterElems(w, k);
  }

  lemma RackIsMet(w: seq<Host>, k: nat)
    requires k < |w|
    ensures w[k].rack in Racks(w)
  {
  }

  /** Once as many hosts as there are have been placed, no later token brings a new one. */
  lemma AllPlaced(w: seq<Host>, k: nat)
    requires Cover(w) <= k < |w|
    requires |Firsts(w[..Cover(w)])| + |Fresh(w[Cover(w)..k], Elems(w[..Cover(w)]))| == |Elems(w)|
    ensures w[k] in Elems(w[..Cover(w)]) || w[k] in w[Cover(w)..k]
  {
    var c := Cover(w);
    var f, n := Firsts(w[..c]), Fresh(w[c..k], Elems(w[..c]));
    FirstsFacts(w[..c]);
    DistinctRacksDistinct(f);
    FreshFacts(w[c..k], Elems(w[..c]));
    DistinctCardinality(n);
    assert Elems(f) !! Elems(n);
    assert |Elems(f) + Elems(n)| == |Elems(w)|;
    PrefixElems(w, c, k);
    forall x | x in Elems(n) ensures x in Elems(w) { assert x in w[c..k]; }
    SubsetOfSameSize(Elems(f) + Elems(n), Elems(w));
    assert w[k] in Elems(w);
  }

  lemma Step(s: Walk, w: seq<Host>, k: nat, rf: nat)
    requires k < |w|
    requires Tracks(s, w, k, rf)
    ensures s.remaining >= 0
    ensures Tracks(Visit(s, w[k], |Racks(w)|, |Elems(w)|), w, k + 1, rf)
  {
    if s.remaining == 0 {
      OrderGrows(w, k);
      TakeOfLonger(OrderAfter(w, k), OrderAfter(w, k + 1), rf);
    } else if k + 1 < Cover(w) {
      StepBeforeCover(s, w, k, rf);
    } else if k + 1 == Cover(w) {
      StepAtCover(s, w, k, rf);
    } else {
      StepAfterCover(s, w, k, rf);
    }
  }

  lemma {:induction false} StepAll(w: seq<Host>, k: nat, rf: nat)
    requires k <= |w|
    ensures Tracks(VisitAll(Start([], rf), w[..k], |Racks(w)|, |Elems(w)|), w, k, rf)
  {
    hide Tracks, Visit, Racks, Elems;
    if k == 0 {
      assert w[..0] == [];
      TracksAtStart(w, rf);
    } else {
      StepAll(w, k - 1, rf);
      Step(VisitAll(Start([], rf), w[..k - 1], |Racks(w)|, |Elems(w)|), w, k - 1, rf);
      assert w[..k][..|w[..k]| - 1] == w[..k - 1];
    }
  }

  lemma TracksAtStart(w: seq<Host>, rf: nat)
    ensures Tracks(Start([], rf), w, 0, rf)
  {
    assert w[..0] == [] && w[0..0] == [];
  }

  /** The replicas of a datacenter are the first rf entries of its Order. */
  lemma ShareIsOrder(w: seq<Host>, rf: nat)
    ensures Share(w, rf) == Take(Order(w), rf)
  {
    StepAll(w, |w|, rf);
    assert w[..|w|] == w;
    assert w[Cover(w)..|w|] == w[Cover(w)..];
  }

  // --------------------------------------------------------------- the closed form, by place

  /** The hosts that are the first of their rack, in the order of the walk. */
  lemma {:induction false} FirstsAt(w: seq<Host>) returns (at: seq<nat>)
    ensures Embeds(Firsts(w), w, at)
    ensures forall k: nat | k < |w| :: k in at <==> w[k].rack !in Racks(w[..k])
  {
    hide Racks;
    if w == [] {
      at := [];
    } else {
      var front, h := w[..|w| - 1], w[|w| - 1];
      assert w == front + [h];
      var before := FirstsAt(front);
      at := EmbedsMore(Firsts(front), front, before, h, h.rack !in Racks(front));
      assert Firsts(front) + [] == Firsts(front);
      forall k: nat | k < |w| ensures k in at <==> w[k].rack !in Racks(w[..k]) {
        if k < |front| { assert front[..k] == w[..k]; } else { assert w[..k] == front; }
      }
    }
  }

  /** The tokens passed over: their rack has been met, by another host. */
  lemma {:induction false} SparesAt(w: seq<Host>) returns (at: seq<nat>)
    ensures Embeds(Spares(w), w, at)
    ensures forall k: nat | k < |w| :: k in at <==> w[k].rack in Racks(w[..k]) && w[k] !in Firsts(w[..k])
  {
    hide Racks, Firsts;
    if w == [] {
      at := [];
    } else {
      var front, h := w[..|w| - 1], w[|w| - 1];
      assert w == front + [h];
      var before := SparesAt(front);
      at := EmbedsMore(Spares(front), front, before, h, h.rack in Racks(front) && h !in Firsts(front));
      assert Spares(front) + [] == Spares(front);
      forall k: nat | k < |w|
        ensures k in at <==> w[k].rack in Racks(w[..k]) && w[k] !in Firsts(w[..k])
      {
        if k < |front| { assert front[..k] == w[..k]; } else { assert w[..k] == front; }
      }
    }
  }

  /** The hosts met for the first time, in the order of the walk. */
  lemma {:induction false} FreshAt(w: seq<Host>, seen: set<Host>) returns (at: seq<nat>)
    ensures Embeds(Fresh(w, seen), w, at)
    ensures forall k: nat | k < |w| :: k in at <==> w[k] !in seen && w[k] !in w[..k]
  {
    if w == [] {
      at := [];
    } else {
      var front, h := w[..|w| - 1], w[|w| - 1];
      assert w == front + [h];
      var before := FreshAt(front, seen);
      at := EmbedsMore(Fresh(front, seen), front, before, h, h !in seen && h !in front);
      assert Fresh(front, seen) + [] == Fresh(front, seen);
      forall k: nat | k < |w| ensures k in at <==> w[k] !in seen && w[k] !in w[..k] {
        if k < |front| { assert front[..k] == w[..k]; } else { assert w[..k] == front; }
      }
    }
  }

  /** The cover is the shortest part of the walk that meets every rack. */
  lemma {:induction false} CoverIsShortest(w: seq<Host>, k: nat)
    requires k <= |w|
    ensures Racks(w[..k]) == Racks(w) <==> Cover(w) <= k
  {
    hide Racks;
    if w == [] {
    } else {
      var front, h := w[..|w| - 1], w[|w| - 1];
      assert w == front + [h];
      RacksAppend(front, h);
      if k < |w| {
        assert front[..k] == w[..k];
        CoverIsShortest(front, k);
        RacksMonotone(w[..k], front);
      } else {
        assert w[..k] == w;
      }
    }
  }

  // ----------------------------------------------------------------- what that gives

  lemma OrderFacts(w: seq<Host>)
    ensures Elems(Order(w)) == Elems(w)
    ensures |Firsts(w[..Cover(w)])| == |Racks(w)|
    ensures |Order(w)| == |Elems(w)| - |Elems(Spares(w[..Cover(w)]))| + |Spares(w[..Cover(w)])|
  {
    hide Elems, Racks, Firsts, Spares, Fresh, Cover, Distinct, DistinctRacks;
    var c := Cover(w);
    var f, p, n := Firsts(w[..c]), Spares(w[..c]), Fresh(w[c..], Elems(w[..c]));
    CoverFacts(w);
    FirstsFacts(w[..c]);
    CountDistinctRacks(f);
    DistinctRacksDistinct(f);
    SparesFacts(w[..c]);
    FreshFacts(w[c..], Elems(w[..c]));
    DistinctCardinality(n);
    assert w == w[..c] + w[c..];
    ElemsConcat(w[..c], w[c..]);
    ElemsConcat(f, p);
    ElemsConcat(f + p, n);
    ThreeParts(Elems(f), Elems(p), Elems(n));
  }

  lemma ThreeParts<T>(a: set<T>, b: set<T>, c: set<T>)
    requires a !! b && (a + b) !! c
    ensures |a + b + c| == |a| + |b| + |c|
  {
  }

  /** A datacenter never contributes more than its replication factor, nor a host that is
      not on the walk. */
  lemma ShareBounds(w: seq<Host>, rf: nat)
    ensures |Share(w, rf)| <= rf
    ensures Elems(Share(w, rf)) <= Elems(w)
    ensures rf >= |Order(w)| ==> Elems(Share(w, rf)) == Elems(w)
  {
    ShareIsOrder(w, rf);
    OrderFacts(w);
    forall x | x in Take(Order(w), rf) ensures x in w {
      assert x in Elems(Order(w));
    }
  }

  /** The replicas of a datacenter lie on as many racks as the replication factor allows. */
  lemma ShareCoversRacks(w: seq<Host>, rf: nat)
    ensures |Racks(Share(w, rf))| == Min(rf, |Racks(w)|)
  {
    ShareIsOrder(w, rf);
    OrderFacts(w);
    var f := Firsts(w[..Cover(w)]);
    FirstsFacts(w[..Cover(w)]);
    CoverFacts(w);
    if rf <= |f| {
      assert Share(w, rf) == f[..rf];
      CountDistinctRacks(f[..rf]);
    } else {
      assert f <= Share(w, rf);
      forall h | h in f ensures h in Share(w, rf) {
        var i :| 0 <= i < |f| && f[i] == h;
        assert Share(w, rf)[i] == h;
      }
      RacksMonotone(f, Share(w, rf));
      ShareBounds(w, rf);
      RacksMonotone(Share(w, rf), w);
    }
  }

  /** A host enters the replicas of a datacenter twice exactly when it was passed over twice
      among the tokens that fill the places left once every rack has a replica. */
  lemma ShareDistinct(w: seq<Host>, rf: nat)
    ensures Distinct(Share(w, rf)) <==> Distinct(Take(Spares(w[..Cover(w)]), rf - |Racks(w)|))
  {
    hide Elems, Racks, Firsts, Spares, Fresh, Cover, Distinct, DistinctRacks, Take, Share;
    ShareIsOrder(w, rf);
    OrderFacts(w);
    var c := Cover(w);
    var f, p, n := Firsts(w[..c]), Spares(w[..c]), Fresh(w[c..], Elems(w[..c]));
    FirstsFacts(w[..c]);
    DistinctRacksDistinct(f);
    SparesFacts(w[..c]);
    FreshFacts(w[c..], Elems(w[..c]));
    TakeOfThree(f, p, n, rf);
    var q, m := Take(p, rf - |f|), Take(n, rf - |f| - |p|);
    TakeDistinct(f, rf);
    TakeDistinct(p, rf - |f|);
    TakeDistinct(n, rf - |f| - |p|);
    ElemsConcat(Take(f, rf), q);
    DistinctConcat(Take(f, rf), q);
    DistinctConcat(Take(f, rf) + q, m);
  }

  lemma TakeOfThree<T>(f: seq<T>, p: seq<T>, n: seq<T>, k: nat)
    ensures Take(f + p + n, k) == Take(f, k) + Take(p, k - |f|) + Take(n, k - |f| - |p|)
  {
  }

  lemma TakeDistinct<T>(s: seq<T>, k: int)
    ensures Elems(Take(s, k)) <= Elems(s)
    ensures Distinct(s) ==> Distinct(Take(s, k))
  {
  }

  /** The number of replicas is the number of hosts, capped by the replication factor,
      exactly when no host is passed over twice or the factor does not exceed the hosts. */
  lemma ShareCount(w: seq<Host>, rf: nat)
    ensures |Share(w, rf)| == Min(rf, |Elems(w)|) <==>
            rf <= |Elems(w)| || Distinct(Spares(w[..Cover(w)]))
  {
    ShareIsOrder(w, rf);
    OrderFacts(w);
    DistinctCardinality(Spares(w[..Cover(w)]));
  }

  /** With one token per host the replicas of a datacenter are distinct hosts, as many as the
      replication factor asks for or the datacenter has. */
  lemma ShareWithOneTokenPerHost(w: seq<Host>, rf: nat)
    requires Distinct(w)
    ensures Distinct(Share(w, rf)) && |Share(w, rf)| == Min(rf, |w|)
  {
    var v := w[..Cover(w)];
    SparesDistinct(v);
    ShareDistinct(w, rf);
    ShareCount(w, rf);
    DistinctCardinality(w);
  }

  lemma {:induction false} SparesDistinct(w: seq<Host>)
    requires Distinct(w)
    ensures Distinct(Spares(w))
  {
    if w != [] {
      var front, h := w[..|w| - 1], w[|w| - 1];
      SparesDistinct(front);
      SparesFacts(front);
      assert h !in front && h !in Elems(front);
      assert h !in Elems(Spares(front));
    }
  }

  /** The failing case is real: with two racks, a host of the first rack that owns two tokens
      before the second rack is met is listed twice. */
  lemma ShareCanRepeatAHost(a: Host, b: Host, c: Host)
    requires a != b && a.rack == b.rack && b.rack != c.rack
    ensures Share([a, b, b, c], 4) == [a, c, b, b]
  {
    hide Racks, Elems, VisitAll, Visit;
    RepeatCounts(a, b, c);
    var s0 := Start([], 4);
    VisitFour(s0, a, b, b, c, 2, 3);
    FirstIsPlaced(a);
    var s1 := Walk([a], 3, 1, [], {a.rack});
    SameRackIsSkipped(s1, a, b);
    SameRackIsSkipped(s1.(skipped := [b]), a, b);
    LastRackFlushes(a, b, c);
    assert [] + [b] == [b] && [b] + [b] == [b, b];
  }

  lemma FirstIsPlaced(a: Host)
    ensures Visit(Start([], 4), a, 2, 3) == Walk([a], 3, 1, [], {a.rack})
  {
    assert {} + {a.rack} == {a.rack} && |{a.rack}| == 1;
  }

  lemma SameRackIsSkipped(s: Walk, a: Host, b: Host)
    requires s.replicas == [a] && s.remaining == 3 && s.placed == 1 && s.racks == {a.rack}
    requires a != b && a.rack == b.rack
    ensures Visit(s, b, 2, 3) == s.(skipped := s.skipped + [b])
  {
    assert |{a.rack}| == 1;
  }

  lemma LastRackFlushes(a: Host, b: Host, c: Host)
    requires a != c && a.rack != c.rack
    ensures Visit(Walk([a], 3, 1, [b, b], {a.rack}), c, 2, 3).replicas == [a, c, b, b]
  {
    assert |{a.rack} + {c.rack}| == 2;
    assert [a] + [c] + [b, b] == [a, c, b, b];
  }

  lemma RepeatCounts(a: Host, b: Host, c: Host)
    requires a != b && a.rack == b.rack && b.rack != c.rack
    ensures |Racks([a, b, b, c])| == 2 && |Elems([a, b, b, c])| == 3
  {
    hide Racks, Elems;
    RacksOfFour(a, b, c);
    ElemsOfFour(a, b, c);
    assert c !in {a, b};
    assert |{a, b} + {c}| == 3;
    assert |{a.rack} + {c.rack}| == 2;
  }

  lemma RacksOfFour(a: Host, b: Host, c: Host)
    requires a.rack == b.rack
    ensures Racks([a, b, b, c]) == {a.rack} + {c.rack}
  {
    var w := [a, b, b, c];
    assert forall h :: h in w <==> h == a || h == b || h == c;
  }

  lemma ElemsOfFour(a: Host, b: Host, c: Host)
    ensures Elems([a, b, b, c]) == {a, b} + {c}
  {
    var w := [a, b, b, c];
    assert forall h :: h in w <==> h == a || h == b || h == c;
  }

  lemma VisitFour(s: Walk, a: Host, b: Host, c: Host, d: Host, rackCount: nat, hostCount: nat)
    requires s.remaining >= 0
    ensures VisitAll(s, [a, b, c, d], rackCount, hostCount) ==
            Visit(Visit(Visit(Visit(s, a, rackCount, hostCount), b, rackCount, hostCount),
                        c, rackCount, hostCount), d, rackCount, hostCount)
  {
    hide Visit;
    assert [a, b, c, d][..3] == [a, b, c] && [a, b, c][..2] == [a, b] && [a, b][..1] == [a] && [a][..0] == [];
    assert VisitAll(s, [a], rackCount, hostCount) == Visit(s, a, rackCount, hostCount);
    assert VisitAll(s, [a, b], rackCount, hostCount) ==
           Visit(VisitAll(s, [a], rackCount, hostCount), b, rackCount, hostCount);
    assert VisitAll(s, [a, b, c], rackCount, hostCount) ==
           Visit(VisitAll(s, [a, b], rackCount, hostCount), c, rackCount, hostCount);
  }
}
