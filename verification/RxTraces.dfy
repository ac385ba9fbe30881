/**
 The receive queue seen from outside: what its runs do is told by their actions alone, and what one
 enqueue and one read do when they are not interrupted.
 */
module RxTraces {
  import opened Seqs
  import opened RxQueue

  // ------------------------------------------------------- what the actions say

  /** The burst producer `p` last asked to enqueue. */
  function Asked(acts: seq<Action>, p: nat): seq<Pkt>
  {
    if acts == [] then [] else
      var a := acts[|acts| - 1];
      if a.Check? && a.p == p then a.pkts else Asked(acts[..|acts| - 1], p)
  }

  /** The bursts that reserved slots, in order. */
  function Admitted(acts: seq<Action>): seq<Pkt>
  {
    if acts == [] then [] else
      var init, a := acts[..|acts| - 1], acts[|acts| - 1];
      if a.Reserve? then Admitted(init) + Asked(init, a.p) else Admitted(init)
  }

  /** ... those since the last swap. */
  function Since(acts: seq<Action>): seq<Pkt>
  {
    if acts == [] then [] else
      var init, a := acts[..|acts| - 1], acts[|acts| - 1];
      if a.Swap? then [] else if a.Reserve? then Since(init) + Asked(init, a.p) else Since(init)
  }

  function Swaps(acts: seq<Action>): nat
  {
    if acts == [] then 0 else Swaps(acts[..|acts| - 1]) + if acts[|acts| - 1].Swap? then 1 else 0
  }

  function Delivers(acts: seq<Action>): nat
  {
    if acts == [] then 0 else Delivers(acts[..|acts| - 1]) + if acts[|acts| - 1].Deliver? then 1 else 0
  }

  /** How many slots producer `p` has committed since its last reservation. */
  function Commits(acts: seq<Action>, p: nat): nat
  {
    if acts == [] then 0 else
      var init, a := acts[..|acts| - 1], acts[|acts| - 1];
      if a.Reserve? && a.p == p then 0 else Commits(init, p) + if a.Commit? && a.p == p then 1 else 0
  }

  predicate StepBy(s: State, a: Action, s': State)
  {
    Enabled(s, a) && s' == Next(s, a)
  }

  /** A run together with its actions. */
  predicate RunOf(t: seq<State>, acts: seq<Action>)
  {
    |t| == |acts| + 1 && Init(t[0]) && forall i :: 0 <= i < |acts| ==> StepBy(t[i], acts[i], t[i + 1])
  }

  lemma RunOfIsRun(t: seq<State>, acts: seq<Action>)
    requires RunOf(t, acts)
    ensures Run(t)
  {
    hide Init, Next, Enabled;
    forall i, j | 0 <= i && j == i + 1 && j < |t|
      ensures Step(t[i], t[j])
    {
      assert StepBy(t[i], acts[i], t[i + 1]);
    }
  }

  // --------------------------------------------------------- the state they lead to

  predicate ProdTold(w: Prod, acts: seq<Action>, p: nat)
  {
    match w
    case Idle => true
    case Checked(pkts) => pkts == Asked(acts, p)
    case Writing(_, _, _, pkts, sent, _) => pkts == Asked(acts, p) && sent == Commits(acts, p)
  }

  predicate HistTold(s: State, acts: seq<Action>)
  {
    && |s.hist| == Swaps(acts) + 1 && s.hist[Epoch(s)] == Since(acts)
    && Flat(s.hist, |s.hist|) == Admitted(acts) && |s.out| == Delivers(acts)
  }

  predicate Told(s: State, acts: seq<Action>)
  {
    HistTold(s, acts) && forall p :: 0 <= p < |s.prods| ==> ProdTold(s.prods[p], acts, p)
  }

  lemma ProdsTold(s: State, acts: seq<Action>, a: Action)
    requires Told(s, acts) && Enabled(s, a)
    ensures var s' := Next(s, a); forall p :: 0 <= p < |s'.prods| ==> ProdTold(s'.prods[p], acts + [a], p)
  {
    hide Flat, Since, Admitted, Swaps, Delivers;
    var s', more := Next(s, a), acts + [a];
    assert more[..|acts|] == acts;
    forall p | 0 <= p < |s'.prods|
      ensures ProdTold(s'.prods[p], more, p)
    {
      assert ProdTold(s.prods[p], acts, p);
    }
  }

  lemma CheckedTold(s: State, acts: seq<Action>, p: nat)
    requires Told(s, acts) && p < |s.prods| && s.prods[p].Checked?
    ensures s.prods[p].pkts == Asked(acts, p)
  {
    assert ProdTold(s.prods[p], acts, p);
  }

  lemma ReserveTold(s: State, acts: seq<Action>, p: nat)
    requires Told(s, acts) && Enabled(s, Reserve(p))
    ensures HistTold(Next(s, Reserve(p)), acts + [Reserve(p)])
  {
    var pkts := s.prods[p].pkts;
    assert (acts + [Reserve(p)])[..|acts|] == acts;
    CheckedTold(s, acts, p);
    FlatMore(s.hist, pkts);
    hide Flat, ProdTold, Asked, Commits;
  }

  lemma SwapTold(s: State, acts: seq<Action>)
    requires Told(s, acts) && Enabled(s, Swap)
    ensures HistTold(Next(s, Swap), acts + [Swap])
  {
    assert (acts + [Swap])[..|acts|] == acts;
    FlatNone(s.hist);
    hide Flat, ProdTold, Asked, Commits;
  }

  lemma OtherTold(s: State, acts: seq<Action>, a: Action)
    requires HistTold(s, acts) && Enabled(s, a) && !a.Reserve? && !a.Swap?
    ensures HistTold(Next(s, a), acts + [a])
  {
    hide Flat, Asked;
    var s' := Next(s, a);
    assert s'.hist == s.hist && |s'.out| == |s.out| + if a.Deliver? then 1 else 0;
    hide Next, Enabled;
    assert (acts + [a])[..|acts|] == acts;
  }

  lemma ToldStep(s: State, acts: seq<Action>, a: Action)
    requires Told(s, acts) && Enabled(s, a)
    ensures Told(Next(s, a), acts + [a])
  {
    ProdsTold(s, acts, a);
    hide ProdTold, HistTold, Next, Enabled;
    match a {
      case Reserve(p) => ReserveTold(s, acts, p);
      case Swap => SwapTold(s, acts);
      case _ => OtherTold(s, acts, a);
    }
  }

  /** Over every run, in bounds or not, the actions alone tell what was reserved in each epoch, who
      has written how much and how much was delivered. */
  lemma {:induction false} RunTold(t: seq<State>, acts: seq<Action>, i: nat)
    requires RunOf(t, acts) && i < |t|
    ensures Told(t[i], acts[..i])
  {
    hide Told, Init, Next, Enabled;
    if i > 0 {
      RunTold(t, acts, i - 1);
      var j := i - 1;
      assert StepBy(t[j], acts[j], t[i]);
      ToldStep(t[j], acts[..j], acts[j]);
      assert acts[..i] == acts[..j] + [acts[j]];
    } else {
      InitTold(t[0]);
    }
  }

  lemma InitTold(s: State)
    requires Init(s)
    ensures Told(s, [])
  {
  }

  /** A burst is admitted exactly when no more slots are reserved since the last swap than a half
      holds; a refused one changes nothing. */
  lemma CheckIff(s: State, p: nat, pkts: seq<Pkt>)
    requires WordOk(s) && Enabled(s, Check(p, pkts))
    ensures var s' := Next(s, Check(p, pkts));
            && (s'.prods[p] == Checked(pkts) <==> |s.hist[Epoch(s)]| <= s.qs)
            && (|s.hist[Epoch(s)]| > s.qs ==> s' == s)
            && s' == s.(prods := s'.prods) && forall q :: 0 <= q < |s.prods| && q != p ==> s'.prods[q] == s.prods[q]
  {
    WordSplit(s);
  }

  /** The same over every run, by its actions. */
  lemma RunCheckIff(t: seq<State>, acts: seq<Action>, i: nat)
    requires RunOf(t, acts) && i < |acts| && acts[i].Check?
    ensures acts[i].p < |t[i + 1].prods|
    ensures t[i + 1].prods[acts[i].p] == Checked(acts[i].pkts) <==> |Since(acts[..i])| <= t[i].qs
  {
    hide Init;
    RunOfIsRun(t, acts);
    WordNeverCarries(t, i);
    RunTold(t, acts, i);
    assert StepBy(t[i], acts[i], t[i + 1]);
    CheckIff(t[i], acts[i].p, acts[i].pkts);
  }

  /** The consumer has received the first packets of the admitted bursts, one for each delivery. */
  lemma ReceivesAdmitted(t: seq<State>, acts: seq<Action>, i: nat)
    requires RunOf(t, acts) && i < |t| && forall j :: 0 <= j <= i ==> Bounded(t[j])
    ensures Delivers(acts[..i]) <= |Admitted(acts[..i])|
    ensures t[i].out == Admitted(acts[..i])[..Delivers(acts[..i])]
    ensures t[i].cons.Ready? ==> t[i].out + Since(acts[..i]) == Admitted(acts[..i])
  {
    hide Init, Bounded;
    RunOfIsRun(t, acts);
    RunTold(t, acts, i);
    ReceivesInOrder(t, i);
    var s := t[i];
    assert Flat(s.hist, |s.hist|) == Flat(s.hist, |s.hist| - 1) + s.hist[|s.hist| - 1];
    hide Flat, Since, Admitted, Swaps, Delivers, ProdTold, Run;
    assert s.out == Admitted(acts[..i])[..|s.out|];
  }

  // ----------------------------------------------------------- an enqueue on its own

  /** Producer `p` writes and commits until it has nothing left or is refused. */
  function WriteAlone(s: State, p: nat): State
    decreases if p < |s.prods| && s.prods[p].Writing? then |s.prods[p].pkts| - s.prods[p].sent else 0
  {
    if !Enabled(s, Fill(p)) then s else
      var a := Next(s, Fill(p));
      if Enabled(a, Commit(p)) then WriteAlone(Next(a, Commit(p)), p) else a
  }

  /** What the other threads see of a state besides the shared memory. */
  predicate OthersSame(s: State, s': State, p: nat)
  {
    && s'.qs == s.qs && s'.word == s.word && s'.cons == s.cons && s'.out == s.out && s'.hist == s.hist
    && |s'.prods| == |s.prods| && forall q :: 0 <= q < |s.prods| && q != p ==> s'.prods[q] == s.prods[q]
  }

  lemma SlotWritten(s: State, p: nat)
    requires Inv(s) && Enabled(s, Fill(p))
    ensures var a := Next(s, Fill(p)); Enabled(a, Commit(p))
    ensures var r := Next(Next(s, Fill(p)), Commit(p));
            && Inv(r) && OthersSame(s, r, p) && r.prods[p] == s.prods[p].(sent := s.prods[p].sent + 1)
  {
    hide WordOk, HalfOk, NextHalfOk, ConsumerOk, Bounded, WritersOk;
    WriteTarget(s, p);
    FillStep(s, p);
    CommitStep(Next(s, Fill(p)), p);
  }

  lemma {:induction false} WritesAll(s: State, p: nat)
    requires Inv(s) && p < |s.prods| && s.prods[p].Writing? && !s.prods[p].filled
    ensures var r := WriteAlone(s, p);
            Inv(r) && OthersSame(s, r, p) && r.prods[p] == s.prods[p].(sent := |s.prods[p].pkts|)
    decreases |s.prods[p].pkts| - s.prods[p].sent
  {
    hide Inv, Next;
    SentBound(s, p);
    if s.prods[p].sent < |s.prods[p].pkts| {
      SlotWritten(s, p);
      WritesAll(Next(Next(s, Fill(p)), Commit(p)), p);
    }
  }

  lemma SentBound(s: State, p: nat)
    requires Inv(s) && p < |s.prods| && s.prods[p].Writing?
    ensures s.prods[p].sent <= |s.prods[p].pkts|
  {
  }

  /** A whole enqueue: check, reserve, write everything, return. */
  function Enqueue(s: State, p: nat, pkts: seq<Pkt>): State
  {
    if !Enabled(s, Check(p, pkts)) then s else
      var a := Next(s, Check(p, pkts));
      if !Enabled(a, Reserve(p)) then a else
        var b := WriteAlone(Next(a, Reserve(p)), p);
        if Enabled(b, Return(p)) then Next(b, Return(p)) else b
  }

  /** An enqueue that is not interrupted and fits adds its burst behind what is reserved, completely
      written. */
  lemma EnqueueWhole(s: State, p: nat, pkts: seq<Pkt>)
    requires Inv(s) && Enabled(s, Check(p, pkts)) && |s.hist[Epoch(s)]| + |pkts| <= s.qs
    ensures var r, e := Enqueue(s, p, pkts), Epoch(s);
            && Inv(r) && r.hist == s.hist[e := s.hist[e] + pkts] && r.prods == s.prods
            && r.qs == s.qs && r.cons == s.cons && r.out == s.out
  {
    hide Inv;
    var a, e := Next(s, Check(p, pkts)), Epoch(s);
    InvWord(s);
    CheckIff(s, p, pkts);
    CheckStep(s, p, pkts);
    assert a.prods[p] == Checked(pkts) && Enabled(a, Reserve(p));
    var b := Next(a, Reserve(p));
    assert b.hist == s.hist[e := s.hist[e] + pkts];
    assert Bounded(b);
    ReserveStep(a, p);
    assert b.prods[p].Writing? && !b.prods[p].filled && b.prods[p].pkts == pkts;
    WritesAll(b, p);
    var c := WriteAlone(b, p);
    assert Enabled(c, Return(p));
    ReturnStep(c, p);
    assert Next(c, Return(p)).prods == s.prods;
  }

  lemma InvWord(s: State)
    requires Inv(s)
    ensures WordOk(s) && Bounded(s)
  {
  }

  // --------------------------------------------------------------- a read on its own

  function ResetAlone(s: State): State
    decreases if s.cons.Resetting? && s.cons.at <= s.qs then s.qs - s.cons.at else 0
  {
    if Enabled(s, ResetSlot) then ResetAlone(Next(s, ResetSlot))
    else if Enabled(s, ResetDone) then Next(s, ResetDone)
    else s
  }

  function DrainAlone(s: State): State
    decreases if s.cons.Draining? && s.cons.pos <= s.cons.len then s.cons.len - s.cons.pos else 0
  {
    if Enabled(s, Deliver) then DrainAlone(Next(s, Deliver))
    else if Enabled(s, DrainDone) then Next(s, DrainDone)
    else s
  }

  /** A whole read: load, reset at a wrap, swap and deliver as long as slots are ready. */
  function Read(s: State): State
  {
    if !Enabled(s, Load) then s else
      var a := ResetAlone(Next(s, Load));
      if Enabled(a, Swap) then DrainAlone(Next(a, Swap)) else a
  }

  /** What a load leads to, in terms of the epoch. */
  lemma LoadIff(s: State)
    requires WordOk(s) && Enabled(s, Load)
    ensures var e, s' := Epoch(s), Next(s, Load);
            && s' == s.(cons := s'.cons)
            && (s'.cons.Resetting? <==> e % 256 == 255 || e % 256 == 0)
            && (s'.cons.Resetting? ==> s'.cons == Resetting(e % 256, s.hist[e] == [], 0))
            && (!s'.cons.Resetting? ==> s'.cons == if s.hist[e] == [] then Ready else Loaded(e % 256))
  {
    WordSplit(s);
  }

  /** A swap starts a new epoch and takes what was reserved, up to the size of a half. */
  lemma SwapTakes(s: State)
    requires WordOk(s) && Enabled(s, Swap)
    ensures var e, s' := Epoch(s), Next(s, Swap);
            && s'.cons == Draining(e % 256, if |s.hist[e]| < s.qs then |s.hist[e]| else s.qs, 0, e)
            && s'.hist == s.hist + [[]] && s' == s.(word := s'.word, cons := s'.cons, hist := s'.hist, resv := s'.resv)
            && Index(s'.word) == (e + 1) % 256 && Len(s'.word) == 0
  {
    WordSplit(s);
    NextEpochWord(Epoch(s));
    WordParts(Epoch(s) + 1, 0);
  }

  /** `commit'` has `v` in the `n` cells from `at` and is `commit` elsewhere. */
  predicate Stamped(commit: seq<nat>, commit': seq<nat>, at: nat, n: nat, v: nat)
  {
    && |commit'| == |commit|
    && forall a :: 0 <= a < |commit| ==> commit'[a] == if at <= a < at + n then v else commit[a]
  }

  /** A reset stamps every slot of the half out of use with the parity of the index and nothing else. */
  lemma {:induction false} ResetStamps(s: State)
    requires Inv(s) && s.cons.Resetting?
    ensures var e, r := Epoch(s), ResetAlone(s);
            && Inv(r) && r == s.(commit := r.commit, cons := if s.cons.empty then Ready else Loaded(e % 256))
            && s.cons.at <= s.qs && Stamped(s.commit, r.commit, Address(s.qs, (e + 1) % 2, s.cons.at), s.qs - s.cons.at, e % 2)
    decreases s.qs - s.cons.at
  {
    ResetPlace(s);
    hide Inv, Enabled, Next;
    if s.cons.at < s.qs {
      ResetSlotStep(s);
      ResetStamps(Next(s, ResetSlot));
    } else {
      ResetDoneStep(s);
    }
  }

  lemma ResetPlace(s: State)
    requires Inv(s) && s.cons.Resetting?
    ensures |s.commit| == 2 * s.qs && s.cons.at <= s.qs && s.cons.q == Epoch(s) % 256
    ensures Enabled(s, ResetSlot) <==> s.cons.at < s.qs
    ensures Enabled(s, ResetDone) <==> s.cons.at == s.qs
    ensures Enabled(s, ResetDone) ==> Next(s, ResetDone) == s.(cons := if s.cons.empty then Ready else Loaded(s.cons.q))
    ensures Enabled(s, ResetSlot) ==>
              var s', at := Next(s, ResetSlot), Address(s.qs, (Epoch(s) + 1) % 2, s.cons.at);
              && s' == s.(commit := s'.commit, cons := s.cons.(at := s.cons.at + 1))
              && Stamped(s.commit, s'.commit, at, 1, Epoch(s) % 2)
  {
    Parity(Epoch(s));
  }

  /** A slot is delivered exactly when it is completely written. */
  lemma DeliverIff(s: State)
    requires Inv(s) && s.cons.Draining?
    ensures Enabled(s, Deliver) <==> s.cons.pos < s.cons.len && !Pending(s.prods, s.cons.epoch, s.cons.pos)
    ensures Enabled(s, Deliver) ==>
              var s', h := Next(s, Deliver), s.hist[s.cons.epoch];
              s.cons.pos < |h| && s' == s.(out := s.out + [h[s.cons.pos]], cons := s.cons.(pos := s.cons.pos + 1))
  {
    if s.cons.pos < s.cons.len {
      CommitNeverLies(s, s.cons.pos);
    }
  }

  /** The first slot from `i` on that is not written yet, or the end of the batch. */
  predicate StopsAt(prods: seq<Prod>, e: int, i: int, end: int, n: int)
  {
    && i <= n <= end && (n < end ==> Pending(prods, e, n))
    && forall k :: i <= k < n ==> !Pending(prods, e, k)
  }

  lemma StopsFrom(prods: seq<Prod>, e: int, i: int, end: int, n: int)
    requires i <= end
    requires if i < end && !Pending(prods, e, i) then StopsAt(prods, e, i + 1, end, n) else n == i
    ensures StopsAt(prods, e, i, end, n)
  {
  }

  lemma {:induction false} DrainsReady(s: State) returns (n: nat)
    requires Inv(s) && s.cons.Draining?
    ensures 0 <= s.cons.epoch < |s.hist| && s.cons.pos <= n <= |s.hist[s.cons.epoch]|
    ensures StopsAt(s.prods, s.cons.epoch, s.cons.pos, |s.hist[s.cons.epoch]|, n)
    ensures var r, h := DrainAlone(s), s.hist[s.cons.epoch];
            r == s.(out := s.out + h[s.cons.pos..n], cons := if n == |h| then Ready else s.cons.(pos := n))
    decreases s.cons.len - s.cons.pos
  {
    DrainPlace(s);
    DeliverIff(s);
    var h := s.hist[s.cons.epoch];
    hide Inv, Pending, Enabled, Next, StopsAt;
    if Enabled(s, Deliver) {
      var a := Next(s, Deliver);
      DeliverStep(s);
      n := DrainsReady(a);
      assert a.out + h[s.cons.pos + 1..n] == s.out + h[s.cons.pos..n];
    } else {
      n := s.cons.pos;
      assert s.out + h[n..n] == s.out;
    }
    StopsFrom(s.prods, s.cons.epoch, s.cons.pos, |h|, n);
  }

  lemma DrainPlace(s: State)
    requires Inv(s) && s.cons.Draining?
    ensures s.cons.epoch == Epoch(s) - 1 >= 0 && s.cons.pos <= s.cons.len == |s.hist[s.cons.epoch]|
    ensures Enabled(s, DrainDone) <==> s.cons.pos == s.cons.len
    ensures Enabled(s, DrainDone) ==> Next(s, DrainDone) == s.(cons := Ready)
  {
  }

  lemma {:induction false} LoadsAlone(s: State)
    requires Inv(s) && s.cons.Ready?
    ensures var e, a := Epoch(s), ResetAlone(Next(s, Load));
            && Inv(a) && a == s.(commit := a.commit, cons := if s.hist[e] == [] then Ready else Loaded(e % 256))
  {
    InvWord(s);
    LoadIff(s);
    LoadStep(s);
    hide Inv;
    if Next(s, Load).cons.Resetting? {
      ResetStamps(Next(s, Load));
    }
  }

  /** A read that is not interrupted comes back empty if nothing is reserved; otherwise it swaps and
      delivers the batch up to the first slot that is not written yet. */
  lemma {:induction false} ReadWhole(s: State) returns (n: nat)
    requires Inv(s) && s.cons.Ready?
    ensures n <= |s.hist[Epoch(s)]| && StopsAt(s.prods, Epoch(s), 0, |s.hist[Epoch(s)]|, n)
    ensures var r, h := Read(s), s.hist[Epoch(s)];
            && r.prods == s.prods && r.out == s.out + h[..n]
            && r.hist == (if h == [] then s.hist else s.hist + [[]])
            && (r.cons.Ready? <==> n == |h|) && (n < |h| ==> r.cons.Draining? && r.cons.pos == n)
  {
    var a, e := ResetAlone(Next(s, Load)), Epoch(s);
    LoadsAlone(s);
    assert Enabled(s, Load) && (Enabled(a, Swap) <==> s.hist[e] != []);
    hide Inv, WordOk, Pending, Enabled, Next, ResetAlone, DrainAlone, StopsAt;
    if s.hist[e] == [] {
      n := 0;
      StopsFrom(s.prods, e, 0, 0, n);
    } else {
      n := SwapsAlone(a);
    }
  }

  lemma {:induction false} SwapsAlone(s: State) returns (n: nat)
    requires Inv(s) && Enabled(s, Swap) && |s.hist| > 0
    ensures n <= |s.hist[Epoch(s)]| && StopsAt(s.prods, Epoch(s), 0, |s.hist[Epoch(s)]|, n)
    ensures var r, h := DrainAlone(Next(s, Swap)), s.hist[Epoch(s)];
            && r.prods == s.prods && r.out == s.out + h[..n] && r.hist == s.hist + [[]]
            && r.cons == if n == |h| then Ready else Draining(Epoch(s) % 256, |h|, n, Epoch(s))
  {
    hide Pending, DrainAlone, StopsAt;
    InvWord(s);
    SwapTakes(s);
    SwapStep(s);
    hide Inv, WordOk, Next, Enabled;
    n := DrainsReady(Next(s, Swap));
    assert s.hist[Epoch(s)][0..n] == s.hist[Epoch(s)][..n];
  }

  /** With no producer at work, what is enqueued next is what the next read returns, behind whatever
      was waiting. */
  lemma EnqueueThenRead(s: State, p: nat, pkts: seq<Pkt>)
    requires Inv(s) && s.cons.Ready? && (forall q :: 0 <= q < |s.prods| ==> s.prods[q] == Idle)
    requires Enabled(s, Check(p, pkts)) && |s.hist[Epoch(s)]| + |pkts| <= s.qs
    ensures var r := Read(Enqueue(s, p, pkts));
            r.cons.Ready? && r.prods == s.prods && r.out == s.out + s.hist[Epoch(s)] + pkts
  {
    hide Inv;
    EnqueueWhole(s, p, pkts);
    var a := Enqueue(s, p, pkts);
    InvWord(a);
    hide Read, Enqueue;
    var n := ReadWhole(a);
    var h := a.hist[Epoch(a)];
    assert h == s.hist[Epoch(s)] + pkts && !Pending(a.prods, Epoch(a), n);
    assert h[..|h|] == h;
  }
}
