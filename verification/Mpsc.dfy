/**
 The intrusive queue of socket buffers: many producers, one consumer.

 A producer clears the link of its buffer, exchanges it with the head and then links the
 former head to it; between the last two steps the list is broken at that point.  The
 consumer owns the tail and gives it away once it is linked.  Steps are atomic and
 sequentially consistent; a run is any interleaving of them.  Popped buffers may be
 pushed again.
 */
module Mpsc {

  const NULL: nat := 0

  type Node = nat

  /** A producer; `at` is history: where the exchange put the former head. */
  datatype Prod =
    | Idle
    | Cleared(skb: Node)
    | Linking(prev: Node, skb: Node, at: nat)

  datatype Cons = Outside | Peeked(node: Node)

  /** History: `order` is the stub and every pushed buffer in the order of their head exchange,
      `popped` is what the consumer was given. */
  datatype State = State(head: Node, tail: Node, link: map<Node, Node>, prods: seq<Prod>, cons: Cons,
                         order: seq<Node>, popped: seq<Node>)

  datatype Action = Clear(p: nat, skb: Node) | Exchange(p: nat) | Link(p: nat) | Peek | Take

  function Follow(s: State, n: Node): Node
  {
    if n in s.link then s.link[n] else NULL
  }

  /** The nodes still in the queue. */
  function Held(s: State): seq<Node>
    requires |s.popped| <= |s.order|
  {
    s.order[|s.popped|..]
  }

  /** A pushed buffer belongs to its producer alone: it is not in the queue, nor about to be. */
  predicate Owned(s: State, skb: Node)
  {
    && skb != NULL && |s.popped| <= |s.order| && skb !in Held(s)
    && forall q :: 0 <= q < |s.prods| ==> s.prods[q] != Cleared(skb)
  }

  predicate Enabled(s: State, a: Action)
  {
    match a
    case Clear(p, skb) => p < |s.prods| && s.prods[p].Idle? && Owned(s, skb)
    case Exchange(p) => p < |s.prods| && s.prods[p].Cleared? && |s.order| > 0
    case Link(p) => p < |s.prods| && s.prods[p].Linking?
    case Peek => s.cons.Outside?
    case Take => s.cons.Peeked?
  }

  function Next(s: State, a: Action): State
    requires Enabled(s, a)
  {
    match a
    case Clear(p, skb) => s.(link := s.link[skb := NULL], prods := s.prods[p := Cleared(skb)])
    case Exchange(p) =>
      var skb := s.prods[p].skb;
      s.(head := skb, prods := s.prods[p := Linking(s.head, skb, |s.order| - 1)], order := s.order + [skb])
    case Link(p) =>
      s.(link := s.link[s.prods[p].prev := s.prods[p].skb], prods := s.prods[p := Idle])
    case Peek =>
      if Follow(s, s.tail) != NULL then s.(cons := Peeked(Follow(s, s.tail))) else s
    case Take => s.(tail := s.cons.node, cons := Outside, popped := s.popped + [s.tail])
  }

  predicate Init(s: State)
  {
    && s.tail == s.head != NULL && Follow(s, s.head) == NULL
    && s.order == [s.head] && s.popped == [] && s.cons == Outside
    && forall p :: 0 <= p < |s.prods| ==> s.prods[p] == Idle
  }

  ghost predicate Step(s: State, s': State)
  {
    exists a :: Enabled(s, a) && s' == Next(s, a)
  }

  ghost predicate Run(t: seq<State>)
  {
    && |t| > 0 && Init(t[0])
    && forall i, j :: 0 <= i && j == i + 1 && j < |t| ==> Step(t[i], t[j])
  }

  // ---------------------------------------------------------------- the invariant

  predicate InFlight(prods: seq<Prod>, i: nat)
  {
    exists p :: 0 <= p < |prods| && prods[p].Linking? && prods[p].at == i
  }

  /** The link behind position `i`: set, or about to be set by a producer. */
  predicate LinkOk(s: State, i: nat)
    requires i + 1 < |s.order|
  {
    if InFlight(s.prods, i) then Follow(s, s.order[i]) == NULL else Follow(s, s.order[i]) == s.order[i + 1]
  }

  predicate ProdOk(s: State, p: Prod)
    requires |s.popped| < |s.order|
  {
    match p
    case Idle => true
    case Cleared(skb) => skb != NULL && skb !in Held(s) && Follow(s, skb) == NULL
    case Linking(prev, skb, at) => |s.popped| <= at < |s.order| - 1 && prev == s.order[at] && skb == s.order[at + 1]
  }

  predicate Apart(p: Prod, q: Prod)
  {
    && (p.Cleared? && q.Cleared? ==> p.skb != q.skb)
    && (p.Linking? && q.Linking? ==> p.at != q.at)
  }

  predicate Inv(s: State)
  {
    var n, m := |s.popped|, |s.order|;
    && n < m && s.popped == s.order[..n]
    && s.tail == s.order[n] && s.head == s.order[m - 1] && Follow(s, s.head) == NULL
    && (forall i :: n <= i < m ==> s.order[i] != NULL)
    && (forall i, j :: n <= i < j < m ==> s.order[i] != s.order[j])
    && (forall i: nat :: n <= i < m - 1 ==> LinkOk(s, i))
    && (forall p :: 0 <= p < |s.prods| ==> ProdOk(s, s.prods[p]))
    && (forall p, q :: 0 <= p < q < |s.prods| ==> Apart(s.prods[p], s.prods[q]))
    && (s.cons.Peeked? ==> n + 1 < m && s.cons.node == s.order[n + 1] == Follow(s, s.tail))
  }

  lemma InitInv(s: State)
    requires Init(s)
    ensures Inv(s)
  {
  }

  lemma HeldAt(s: State, i: nat)
    requires |s.popped| <= i < |s.order|
    ensures s.order[i] in Held(s)
  {
    assert Held(s)[i - |s.popped|] == s.order[i];
  }

  lemma ClearStep(s: State, p: nat, skb: Node)
    requires Inv(s) && Enabled(s, Clear(p, skb))
    ensures Inv(Next(s, Clear(p, skb)))
  {
    var s' := Next(s, Clear(p, skb));
    forall i: nat | |s.popped| <= i < |s.order|
      ensures Follow(s', s.order[i]) == Follow(s, s.order[i])
    {
      HeldAt(s, i);
    }
    forall i: nat | |s.popped| <= i < |s.order| - 1
      ensures LinkOk(s', i)
    {
      assert LinkOk(s, i);
      FlightKept(s.prods, p, Cleared(skb), i);
    }
    forall q | 0 <= q < |s.prods|
      ensures ProdOk(s', s'.prods[q])
    {
      assert ProdOk(s, s.prods[q]);
    }
  }

  lemma FlightKept(prods: seq<Prod>, p: nat, w: Prod, i: nat)
    requires p < |prods| && (prods[p].Linking? && prods[p].at == i <==> w.Linking? && w.at == i)
    ensures InFlight(prods[p := w], i) == InFlight(prods, i)
  {
    if InFlight(prods, i) {
      var q :| 0 <= q < |prods| && prods[q].Linking? && prods[q].at == i;
      assert prods[p := w][q].Linking? && prods[p := w][q].at == i;
    }
  }

  /** Between the exchange and the link the list is broken exactly behind the former head. */
  lemma ExchangeStep(s: State, p: nat)
    requires Inv(s) && Enabled(s, Exchange(p))
    ensures Inv(Next(s, Exchange(p)))
  {
    var s', m := Next(s, Exchange(p)), |s.order|;
    assert ProdOk(s, s.prods[p]);
    forall i: nat | |s.popped| <= i < m
      ensures s.order[i] != s.prods[p].skb
    {
      HeldAt(s, i);
    }
    assert s'.prods[p].Linking? && s'.prods[p].at == m - 1;
    forall i: nat | |s.popped| <= i < m
      ensures LinkOk(s', i)
    {
      if i < m - 1 {
        assert LinkOk(s, i);
        FlightKept(s.prods, p, s'.prods[p], i);
      }
    }
    ExchangeProds(s, p);
  }

  lemma ExchangeProds(s: State, p: nat)
    requires Inv(s) && Enabled(s, Exchange(p))
    ensures var s' := Next(s, Exchange(p));
            && (forall q :: 0 <= q < |s'.prods| ==> ProdOk(s', s'.prods[q]))
            && (forall q, r :: 0 <= q < r < |s'.prods| ==> Apart(s'.prods[q], s'.prods[r]))
  {
    var s', skb := Next(s, Exchange(p)), s.prods[p].skb;
    assert Held(s') == Held(s) + [skb];
    forall q | 0 <= q < |s'.prods|
      ensures ProdOk(s', s'.prods[q])
    {
      assert ProdOk(s, s.prods[q]);
      if q < p {
        assert Apart(s.prods[q], s.prods[p]);
      } else if p < q {
        assert Apart(s.prods[p], s.prods[q]);
      }
    }
    forall q, r | 0 <= q < r < |s'.prods|
      ensures Apart(s'.prods[q], s'.prods[r])
    {
      assert Apart(s.prods[q], s.prods[r]) && ProdOk(s, s.prods[q]) && ProdOk(s, s.prods[r]);
    }
  }

  lemma Unlinked(s: State, p: nat, i: nat)
    requires Inv(s) && Enabled(s, Link(p))
    ensures InFlight(Next(s, Link(p)).prods, i) <==> InFlight(s.prods, i) && i != s.prods[p].at
  {
    var s' := Next(s, Link(p));
    if i == s.prods[p].at {
      forall q | 0 <= q < |s.prods|
        ensures !(s'.prods[q].Linking? && s'.prods[q].at == i)
      {
        if q < p {
          assert Apart(s.prods[q], s.prods[p]);
        } else if p < q {
          assert Apart(s.prods[p], s.prods[q]);
        }
      }
    } else {
      FlightKept(s.prods, p, Idle, i);
    }
  }

  lemma LinkStep(s: State, p: nat)
    requires Inv(s) && Enabled(s, Link(p))
    ensures Inv(Next(s, Link(p)))
  {
    var s', w := Next(s, Link(p)), s.prods[p];
    assert ProdOk(s, w) && LinkOk(s, w.at);
    assert InFlight(s.prods, w.at);
    forall i: nat | |s.popped| <= i < |s.order| - 1
      ensures LinkOk(s', i)
    {
      assert LinkOk(s, i);
      Unlinked(s, p, i);
    }
    HeldAt(s, w.at);
    forall q | 0 <= q < |s.prods|
      ensures ProdOk(s', s'.prods[q])
    {
      assert ProdOk(s, s.prods[q]);
    }
  }

  lemma PeekStep(s: State)
    requires Inv(s) && Enabled(s, Peek)
    ensures Inv(Next(s, Peek))
  {
    var s', n := Next(s, Peek), |s.popped|;
    if n + 1 < |s.order| {
      assert LinkOk(s, n);
    }
    forall i: nat | n <= i < |s.order| - 1
      ensures LinkOk(s', i)
    {
      assert LinkOk(s, i);
    }
    forall p | 0 <= p < |s.prods|
      ensures ProdOk(s', s'.prods[p])
    {
      assert ProdOk(s, s.prods[p]);
    }
  }

  lemma TakeStep(s: State)
    requires Inv(s) && Enabled(s, Take)
    ensures Inv(Next(s, Take))
  {
    var s', n := Next(s, Take), |s.popped|;
    assert LinkOk(s, n);
    forall i: nat | n + 1 <= i < |s.order| - 1
      ensures LinkOk(s', i)
    {
      assert LinkOk(s, i);
    }
    assert Held(s) == [s.tail] + Held(s');
    forall p | 0 <= p < |s.prods|
      ensures ProdOk(s', s'.prods[p])
    {
      assert ProdOk(s, s.prods[p]);
    }
  }

  lemma StepInv(s: State, s': State)
    requires Inv(s) && Step(s, s')
    ensures Inv(s')
  {
    var a :| Enabled(s, a) && s' == Next(s, a);
    match a {
      case Clear(p, skb) => ClearStep(s, p, skb);
      case Exchange(p) => ExchangeStep(s, p);
      case Link(p) => LinkStep(s, p);
      case Peek => PeekStep(s);
      case Take => TakeStep(s);
    }
  }

  lemma {:induction false} RunInv(t: seq<State>, i: nat)
    requires Run(t) && i < |t|
    ensures Inv(t[i])
  {
    hide Inv, Init, Step;
    if i > 0 {
      RunInv(t, i - 1);
      assert Step(t[i - 1], t[i]);
      StepInv(t[i - 1], t[i]);
    } else {
      InitInv(t[0]);
    }
  }

  /** What was popped, followed by what is held, is the stub and the pushed buffers in the order of
      their exchange; the newest is always held back, and no node is held twice. */
  lemma PopsInOrder(t: seq<State>, i: nat)
    requires Run(t) && i < |t|
    ensures |t[i].popped| < |t[i].order| && t[i].popped + Held(t[i]) == t[i].order
    ensures |t[i].order| > 0 && t[i].order[0] == t[0].head
    ensures Held(t[i])[|Held(t[i])| - 1] == t[i].head
    ensures forall j, k :: 0 <= j < k < |Held(t[i])| ==> Held(t[i])[j] != Held(t[i])[k]
  {
    RunInv(t, i);
    StubFirst(t, i);
  }

  lemma {:induction false} StubFirst(t: seq<State>, i: nat)
    requires Run(t) && i < |t|
    ensures |t[i].order| > 0 && t[i].order[0] == t[0].head
  {
    if i > 0 {
      StubFirst(t, i - 1);
      OrderGrows(t[i - 1], t[i]);
    }
  }

  /** A step never forgets or reorders what happened. */
  lemma OrderGrows(s: State, s': State)
    requires Step(s, s')
    ensures s.order <= s'.order && s.popped <= s'.popped
  {
  }

  /** A pop comes back empty exactly when only the newest node is held, or the next push has
      exchanged the head but not linked yet. */
  lemma PopIff(s: State)
    requires Inv(s) && s.cons.Outside?
    ensures Next(s, Peek).cons.Peeked? <==> |Held(s)| > 1 && !InFlight(s.prods, |s.popped|)
  {
    if |Held(s)| > 1 {
      assert LinkOk(s, |s.popped|);
    }
  }

  // ------------------------------------------------------- what the actions say

  /** The buffer producer `p` last set out to push. */
  function Given(acts: seq<Action>, p: nat): Node
  {
    if acts == [] then NULL else
      var a := acts[|acts| - 1];
      if a.Clear? && a.p == p then a.skb else Given(acts[..|acts| - 1], p)
  }

  /** The buffers pushed, one for each exchange of the head, in order. */
  function Pushed(acts: seq<Action>): seq<Node>
  {
    if acts == [] then [] else
      var init, a := acts[..|acts| - 1], acts[|acts| - 1];
      if a.Exchange? then Pushed(init) + [Given(init, a.p)] else Pushed(init)
  }

  function Takes(acts: seq<Action>): nat
  {
    if acts == [] then 0 else Takes(acts[..|acts| - 1]) + if acts[|acts| - 1].Take? then 1 else 0
  }

  predicate StepBy(s: State, a: Action, s': State)
  {
    Enabled(s, a) && s' == Next(s, a)
  }

  /** A run together with its actions. */
  predicate RunOf(t: seq<State>, acts: seq<Action>)
  {
    |t| == |acts| + 1 && Init(t[0]) && forall i :: 0 <= i < |acts| ==> StepBy(t[i], acts[i], t[i + 1])
  }

  lemma RunOfIsRun(t: seq<State>, acts: seq<Action>)
    requires RunOf(t, acts)
    ensures Run(t)
  {
    hide Init, Next, Enabled;
    forall i, j | 0 <= i && j == i + 1 && j < |t|
      ensures Step(t[i], t[j])
    {
      assert StepBy(t[i], acts[i], t[i + 1]);
    }
  }

  predicate ProdTold(w: Prod, acts: seq<Action>, p: nat)
  {
    w.Idle? || w.skb == Given(acts, p)
  }

  predicate Told(s: State, stub: Node, acts: seq<Action>)
  {
    && s.order == [stub] + Pushed(acts) && |s.popped| == Takes(acts)
    && forall p :: 0 <= p < |s.prods| ==> ProdTold(s.prods[p], acts, p)
  }

  lemma ToldStep(s: State, stub: Node, acts: seq<Action>, a: Action)
    requires Told(s, stub, acts) && Enabled(s, a)
    ensures Told(Next(s, a), stub, acts + [a])
  {
    var s', more := Next(s, a), acts + [a];
    assert more[..|acts|] == acts;
    forall p | 0 <= p < |s'.prods|
      ensures ProdTold(s'.prods[p], more, p)
    {
      assert ProdTold(s.prods[p], acts, p);
    }
    if a.Exchange? {
      assert ProdTold(s.prods[a.p], acts, a.p);
    }
  }

  lemma {:induction false} RunTold(t: seq<State>, acts: seq<Action>, i: nat)
    requires RunOf(t, acts) && i < |t|
    ensures Told(t[i], t[0].head, acts[..i])
  {
    if i > 0 {
      hide Told, Next, Enabled;
      var j := i - 1;
      RunTold(t, acts, j);
      assert StepBy(t[j], acts[j], t[i]);
      ToldStep(t[j], t[0].head, acts[..j], acts[j]);
      assert acts[..i] == acts[..j] + [acts[j]];
    }
  }

  /** Over every run: the pops return the stub and then the pushed buffers, in the order in which their
      producers exchanged the head; what was pushed and not popped is held. */
  lemma PopsPushed(t: seq<State>, acts: seq<Action>, i: nat)
    requires RunOf(t, acts) && i < |t|
    ensures var all, n := [t[0].head] + Pushed(acts[..i]), Takes(acts[..i]);
            n < |all| && t[i].popped == all[..n] && |t[i].popped| <= |t[i].order| && Held(t[i]) == all[n..]
  {
    hide Init, Pushed, Takes;
    RunOfIsRun(t, acts);
    RunTold(t, acts, i);
    PopsInOrder(t, i);
  }

  // ------------------------------------------------------ a push and a pop on their own

  /** The exchange puts the buffer last and leaves the link behind the former head to be set. */
  lemma ExchangeIs(s: State, p: nat)
    requires Inv(s) && Enabled(s, Exchange(p))
    ensures var s', skb := Next(s, Exchange(p)), s.prods[p].skb;
            && s'.order == s.order + [skb] && s'.head == skb != s.head && s'.prods[p] == Linking(s.head, skb, |s.order| - 1)
            && InFlight(s'.prods, |s.order| - 1) && Follow(s', s.head) == NULL
            && s' == s.(head := skb, prods := s'.prods, order := s'.order)
            && forall q :: 0 <= q < |s.prods| && q != p ==> s'.prods[q] == s.prods[q]
  {
    var s' := Next(s, Exchange(p));
    assert ProdOk(s, s.prods[p]);
    HeldAt(s, |s.order| - 1);
    assert s'.prods[p].Linking? && s'.prods[p].at == |s.order| - 1;
  }

  /** Takes the step if it can be taken. */
  function Do(s: State, a: Action): State
  {
    if Enabled(s, a) then Next(s, a) else s
  }

  function Push(s: State, p: nat, skb: Node): State
  {
    Do(Do(Do(s, Clear(p, skb)), Exchange(p)), Link(p))
  }

  function Pop(s: State): State
  {
    Do(Do(s, Peek), Take)
  }

  /** A push that is not interrupted appends its buffer, linked. */
  lemma PushWhole(s: State, p: nat, skb: Node)
    requires Inv(s) && Enabled(s, Clear(p, skb))
    ensures var r := Push(s, p, skb);
            && Inv(r) && r.prods == s.prods && r.order == s.order + [skb] && r.head == skb && r.tail == s.tail
            && Follow(r, s.head) == skb && Follow(r, skb) == NULL && r.popped == s.popped && r.cons == s.cons
  {
    ClearStep(s, p, skb);
    var a := Next(s, Clear(p, skb));
    ExchangeStep(a, p);
    ExchangeIs(a, p);
    var b := Next(a, Exchange(p));
    LinkStep(b, p);
    var c := Next(b, Link(p));
    assert c.prods == s.prods;
    hide Inv;
  }

  /** A pop that is not interrupted returns the oldest node held, if there is another behind it and
      that one is linked; otherwise it changes nothing. */
  lemma PopWhole(s: State)
    requires Inv(s) && s.cons.Outside?
    ensures var r := Pop(s);
            && Inv(r) && |s.popped| < |s.order| && r.order == s.order && r.prods == s.prods && r.cons == Outside
            && (if |Held(s)| > 1 && !InFlight(s.prods, |s.popped|)
                then r.popped == s.popped + [s.tail] && r.tail == Held(s)[1] else r == s)
  {
    PopIff(s);
    PeekStep(s);
    var a := Next(s, Peek);
    if a.cons.Peeked? {
      TakeStep(a);
    }
  }

  function PopTimes(s: State, n: nat): State
  {
    if n == 0 then s else Pop(PopTimes(s, n - 1))
  }

  /** With no producer at work, pops return the nodes held one after the other, all but the newest. */
  lemma {:induction false} PopsHeld(s: State, n: nat)
    requires Inv(s) && s.cons.Outside? && (forall p :: 0 <= p < |s.prods| ==> s.prods[p] == Idle) && n < |Held(s)|
    ensures var r := PopTimes(s, n);
            Inv(r) && r.popped == s.popped + Held(s)[..n] && r.order == s.order && r.prods == s.prods && r.cons == Outside
  {
    if n > 0 {
      PopsHeld(s, n - 1);
      var r := PopTimes(s, n - 1);
      PopWhole(r);
      hide Inv;
      assert !InFlight(r.prods, |r.popped|);
    }
  }
}
