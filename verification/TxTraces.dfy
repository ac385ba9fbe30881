/**
 The transmit queue seen from outside: what its runs do is told by their actions alone, and what one
 injection and one walk do when they are not interrupted.
 */
module TxTraces {
  import opened Seqs
  import opened TxQueue

  // ------------------------------------------------------- what the actions say

  /** The packet last offered. */
  function Offered(acts: seq<Action>): Pkt
  {
    if acts == [] then Pkt(0, 0, []) else
      var a := acts[|acts| - 1];
      if a.Place? then a.pkt else Offered(acts[..|acts| - 1])
  }

  /** The packets whose injection was completed, in order. */
  function Injected(acts: seq<Action>): seq<Pkt>
  {
    if acts == [] then [] else
      var init, a := acts[..|acts| - 1], acts[|acts| - 1];
      if a.Finish? then Injected(init) + [Offered(init)] else Injected(init)
  }

  /** How often the thread has asked for a swap. */
  function Adds(acts: seq<Action>): nat
  {
    if acts == [] then 0 else Adds(acts[..|acts| - 1]) + if acts[|acts| - 1].Add? then 1 else 0
  }

  /** ... as the producer last loaded it, and as it last stored it. */
  function Noticed(acts: seq<Action>): nat
  {
    if acts == [] then 0 else
      var init, a := acts[..|acts| - 1], acts[|acts| - 1];
      if a.Load? then Adds(init) else Noticed(init)
  }

  function Followed(acts: seq<Action>): nat
  {
    if acts == [] then 0 else
      var init, a := acts[..|acts| - 1], acts[|acts| - 1];
      if a.Store? then Noticed(init) else Followed(init)
  }

  /** The packets injected since the producer last followed a new swap. */
  function Since(acts: seq<Action>): seq<Pkt>
  {
    if acts == [] then [] else
      var init, a := acts[..|acts| - 1], acts[|acts| - 1];
      if a.Store? && Noticed(init) != Followed(init) then []
      else if a.Finish? then Since(init) + [Offered(init)]
      else Since(init)
  }

  function Reads(acts: seq<Action>): nat
  {
    if acts == [] then 0 else Reads(acts[..|acts| - 1]) + if acts[|acts| - 1].Read? then 1 else 0
  }

  predicate StepBy(s: State, a: Action, s': State)
  {
    Enabled(s, a) && s' == Next(s, a)
  }

  /** A run together with its actions. */
  predicate RunOf(t: seq<State>, acts: seq<Action>)
  {
    |t| == |acts| + 1 && Init(t[0]) && forall i :: 0 <= i < |acts| ==> StepBy(t[i], acts[i], t[i + 1])
  }

  lemma RunOfIsRun(t: seq<State>, acts: seq<Action>)
    requires RunOf(t, acts)
    ensures Run(t)
  {
    hide Init, Next, Enabled;
    forall i, j | 0 <= i && j == i + 1 && j < |t|
      ensures Step(t[i], t[j])
    {
      assert StepBy(t[i], acts[i], t[i + 1]);
    }
  }

  // --------------------------------------------------------- the state they lead to

  predicate UserTold(s: State, acts: seq<Action>)
  {
    && s.seen == Followed(acts)
    && (s.user.Loaded? ==> s.user.epoch == Noticed(acts))
    && (s.user.Writing? ==> s.user.pkt == Offered(acts))
  }

  predicate HistTold(s: State, acts: seq<Action>)
  {
    && |s.hist| == Adds(acts) + 1 && |s.out| == Reads(acts)
    && 0 <= s.seen < |s.hist| && s.hist[s.seen] == Since(acts)
    && Flat(s.hist, |s.hist|) == Injected(acts)
  }

  predicate Told(s: State, acts: seq<Action>)
  {
    UserTold(s, acts) && HistTold(s, acts)
  }

  lemma UserToldStep(s: State, acts: seq<Action>, a: Action)
    requires Inv(s) && Told(s, acts) && Enabled(s, a)
    ensures UserTold(Next(s, a), acts + [a])
  {
    hide Flat, Since, Injected, Reads, UserOk, KernelOk, Words, Overwrite, Fetch;
    assert (acts + [a])[..|acts|] == acts;
  }

  /** The packet just finished comes last of all, even if the thread has asked for a swap meanwhile. */
  lemma FinishTold(s: State, acts: seq<Action>)
    requires Inv(s) && Told(s, acts) && Enabled(s, Finish)
    ensures HistTold(Next(s, Finish), acts + [Finish])
  {
    var p, e, hist := s.user.pkt, Epoch(s), s.hist;
    assert (acts + [Finish])[..|acts|] == acts;
    if s.seen == e {
      FlatMore(hist, [p]);
    } else {
      LateMore(hist, p);
    }
    assert Next(s, Finish).hist == hist[s.seen := hist[s.seen] + [p]];
    hide Flat, Inv, Overwrite;
  }

  lemma LateMore(hist: seq<seq<Pkt>>, p: Pkt)
    requires |hist| > 1 && hist[|hist| - 1] == []
    ensures var n := |hist|; Flat(hist[n - 2 := hist[n - 2] + [p]], n) == Flat(hist, n) + [p]
  {
    var n := |hist|;
    var early := hist[..n - 1];
    FlatMore(early, [p]);
    FlatSame(hist, early, n - 1);
    FlatSame(hist[n - 2 := hist[n - 2] + [p]], early[n - 2 := early[n - 2] + [p]], n - 1);
  }

  /** What the producer follows newly is still empty. */
  lemma StoreTold(s: State, acts: seq<Action>)
    requires Inv(s) && Told(s, acts) && Enabled(s, Store)
    ensures HistTold(Next(s, Store), acts + [Store])
  {
    assert (acts + [Store])[..|acts|] == acts;
    assert s.user.epoch != s.seen ==> s.hist[s.user.epoch] == [];
    hide Flat, Inv;
  }

  lemma AddTold(s: State, acts: seq<Action>)
    requires Inv(s) && Told(s, acts) && Enabled(s, Add)
    ensures HistTold(Next(s, Add), acts + [Add])
  {
    assert (acts + [Add])[..|acts|] == acts;
    FlatNone(s.hist);
    hide Flat, Inv;
  }

  lemma OtherTold(s: State, acts: seq<Action>, a: Action)
    requires HistTold(s, acts) && Enabled(s, a) && !a.Finish? && !a.Store? && !a.Add?
    ensures HistTold(Next(s, a), acts + [a])
  {
    hide Flat;
    var s' := Next(s, a);
    assert s'.hist == s.hist && s'.seen == s.seen && |s'.out| == |s.out| + if a.Read? then 1 else 0;
    hide Next, Enabled;
    assert (acts + [a])[..|acts|] == acts;
  }

  lemma ToldStep(s: State, acts: seq<Action>, a: Action)
    requires Inv(s) && Told(s, acts) && Enabled(s, a)
    ensures Told(Next(s, a), acts + [a])
  {
    UserToldStep(s, acts, a);
    hide Inv, UserTold, HistTold, Next, Enabled;
    match a {
      case Finish => FinishTold(s, acts);
      case Store => StoreTold(s, acts);
      case Add => AddTold(s, acts);
      case _ => OtherTold(s, acts, a);
    }
  }

  lemma InitTold(s: State)
    requires Init(s)
    ensures Told(s, [])
  {
  }

  /** Over every run the actions alone tell what was accepted, in which half, and how much was walked. */
  lemma {:induction false} RunTold(t: seq<State>, acts: seq<Action>, i: nat)
    requires RunOf(t, acts) && i < |t|
    ensures Told(t[i], acts[..i])
  {
    hide Told, Init, Inv, Next, Enabled;
    if i > 0 {
      RunTold(t, acts, i - 1);
      var j := i - 1;
      RunOfIsRun(t, acts);
      RunInv(t, j);
      assert StepBy(t[j], acts[j], t[i]);
      ToldStep(t[j], acts[..j], acts[j]);
      assert acts[..i] == acts[..j] + [acts[j]];
    } else {
      InitTold(t[0]);
    }
  }

  /** A packet that fits is written as it was offered, right behind the packets already accepted in
      the half; any other is refused, and nothing but the write position is touched. */
  lemma PlaceIff(s: State, p: Pkt)
    requires Inv(s) && Enabled(s, Place(p))
    ensures var s' := Next(s, Place(p));
            && s'.user == (if Span(s.hist[s.seen]) + Size(p) + 2 < s.width then Writing(p, 0) else Outside)
            && s'.tptr == Base(s, s.seen) + Span(s.hist[s.seen]) && s'.tseen == s.seen
            && s' == s.(user := s'.user, tindex := s'.tindex, tptr := s'.tptr, tseen := s'.tseen)
  {
    LimitParity(s.seen);
    LimitApart(s.seen, s.tseen);
  }

  /** The same over every run, by its actions. */
  lemma RunPlaceIff(t: seq<State>, acts: seq<Action>, i: nat)
    requires RunOf(t, acts) && i < |acts| && acts[i].Place?
    ensures t[i + 1].user == if Span(Since(acts[..i])) + Size(acts[i].pkt) + 2 < t[i].width then Writing(acts[i].pkt, 0) else Outside
  {
    hide Init, Next, Enabled;
    RunOfIsRun(t, acts);
    RunInv(t, i);
    RunTold(t, acts, i);
    hide Inv;
    assert StepBy(t[i], acts[i], t[i + 1]);
    PlaceIff(t[i], acts[i].pkt);
  }

  /** The thread has walked the first packets injected, one for each step of its walks, and between
      walks all those injected before the last swap was followed. */
  lemma WalksInjected(t: seq<State>, acts: seq<Action>, i: nat)
    requires RunOf(t, acts) && i < |t|
    ensures Reads(acts[..i]) <= |Injected(acts[..i])|
    ensures t[i].out == Injected(acts[..i])[..Reads(acts[..i])]
    ensures t[i].kernel.Idle? ==> t[i].out + Since(acts[..i]) == Injected(acts[..i])
  {
    hide Init, Next, Enabled;
    RunOfIsRun(t, acts);
    RunTold(t, acts, i);
    WalksInOrder(t, i);
    RunInv(t, i);
    var s := t[i];
    assert Flat(s.hist, |s.hist|) == Flat(s.hist, |s.hist| - 1) + s.hist[|s.hist| - 1];
    assert s.kernel.Idle? ==> s.seen == Epoch(s);
    hide Inv, Flat, Since, Injected, Adds, Reads, UserTold, Run;
    assert s.out == Injected(acts[..i])[..|s.out|];
  }

  // --------------------------------------------------------- an injection on its own

  /** Takes the step if it can be taken. */
  function Do(s: State, a: Action): State
  {
    if Enabled(s, a) then Next(s, a) else s
  }

  function Inject(s: State, p: Pkt): State
  {
    Do(Do(Do(Do(Do(Do(Do(s, Load), Store), Place(p)), WriteLen), WriteStamp), WriteBody), Finish)
  }

  /** What the thread sees of a state besides the shared memory. */
  predicate ThreadSame(s: State, s': State)
  {
    s'.width == s.width && s'.cons == s.cons && s'.kernel == s.kernel && s'.out == s.out
  }

  lemma EnterAlone(s: State)
    requires Inv(s) && s.user.Outside?
    ensures var r := Do(Do(s, Load), Store);
            Inv(r) && r.user == Entered(s.cons) && ThreadSame(s, r) && r.hist == s.hist && r.seen == Epoch(s)
  {
    LoadStep(s);
    StoreStep(Next(s, Load));
  }

  lemma WriteAlone(s: State)
    requires Inv(s) && s.user.Writing? && s.user.stage == 0
    ensures var r := Do(Do(Do(Do(s, WriteLen), WriteStamp), WriteBody), Finish);
            && Inv(r) && r.user == Outside && ThreadSame(s, r) && r.seen == s.seen
            && 0 <= s.seen < |s.hist| && r.hist == s.hist[s.seen := s.hist[s.seen] + [s.user.pkt]]
  {
    WriteLenStep(s);
    var a := Next(s, WriteLen);
    WriteStampStep(a);
    var b := Next(a, WriteStamp);
    WriteBodyStep(b);
    var c := Next(b, WriteBody);
    FinishStep(c);
    hide Inv, Overwrite;
  }

  /** An injection that is not interrupted follows the last swap and adds exactly its packet to the
      half if it fits; otherwise the half stays as it is. */
  lemma InjectWhole(s: State, p: Pkt)
    requires Inv(s) && s.user.Outside? && Proper(p)
    ensures var r, e := Inject(s, p), Epoch(s);
            && Inv(r) && r.user == Outside && ThreadSame(s, r) && r.seen == e
            && r.hist == if Span(s.hist[e]) + Size(p) + 2 < s.width then s.hist[e := s.hist[e] + [p]] else s.hist
  {
    EnterAlone(s);
    var a := Do(Do(s, Load), Store);
    PlaceIff(a, p);
    PlaceStep(a, p);
    var b := Next(a, Place(p));
    assert Do(a, Place(p)) == b;
    hide Inv, Next;
    if b.user.Writing? {
      WriteAlone(b);
    }
  }

  // ------------------------------------------------------------- a walk on its own

  /** The walk goes on exactly while packets of its half are left, and each step takes the next. */
  lemma ReadIff(s: State)
    requires Inv(s) && s.kernel.Walking?
    ensures var e, k := Epoch(s) - 1, s.kernel.taken;
            && e >= 0 && k <= |s.hist[e]| && (Enabled(s, Read) <==> k < |s.hist[e]|) && (Enabled(s, Stop) <==> k == |s.hist[e]|)
            && (Enabled(s, Read) ==>
                  && Next(s, Read).out == s.out + [s.hist[e][k]] && Next(s, Read).kernel.Walking?
                  && Next(s, Read).kernel.taken == k + 1)
  {
    WalkInside(s);
  }

  function WalkAlone(s: State): State
    requires Inv(s)
    decreases if s.kernel.Walking? && |s.hist| > 1 then |s.hist[|s.hist| - 2]| - s.kernel.taken else 0
  {
    if Enabled(s, Read) then
      ReadStep(s); ReadIff(s);
      WalkAlone(Next(s, Read))
    else Do(Do(s, Stop), Clear)
  }

  /** A walk takes all that its half holds, in order, and leaves the half cleared. */
  lemma {:induction false} WalkWhole(s: State)
    requires Inv(s) && s.kernel.Walking?
    ensures var r := WalkAlone(s);
            && Inv(r) && r.kernel == Idle && r.out == Flat(s.hist, Epoch(s))
            && r.hist == s.hist && r.user == s.user && r.seen == s.seen && r.width == s.width
    decreases |s.hist[Epoch(s) - 1]| - s.kernel.taken
  {
    ReadIff(s);
    if Enabled(s, Read) {
      ReadStep(s);
      hide Inv, Flat, Fetch;
      WalkWhole(Next(s, Read));
    } else {
      StopStep(s);
      ClearStep(Next(s, Stop));
      hide UserOk, Flat, Overwrite;
    }
  }

  /** A whole flush: ask for a swap, wait for the next injection, walk. */
  ghost function Flush(s: State, p: Pkt): State
  {
    var a := Do(Inject(Do(s, Add), p), Wake);
    if Inv(a) then WalkAlone(a) else a
  }

  /** A flush followed by one injection sends all packets accepted before, in order; the new one, if
      it fits an empty half, waits in the other. */
  lemma FlushWhole(s: State, p: Pkt)
    requires Inv(s) && s.user.Outside? && s.kernel.Idle? && Proper(p)
    ensures var r := Flush(s, p);
            && Inv(r) && r.kernel == Idle && r.user == Outside && r.out == Flat(s.hist, |s.hist|)
            && r.hist == s.hist + [if Size(p) + 2 < s.width then [p] else []]
  {
    hide Inv, Flat, Inject, WalkAlone;
    AddAlone(s);
    var a := Do(s, Add);
    InjectWhole(a, p);
    var b := Inject(a, p);
    assert a.hist[|s.hist|] + [p] == [p];
    assert a.hist[|s.hist| := [p]] == s.hist + [[p]];
    assert b.hist == s.hist + [if Size(p) + 2 < s.width then [p] else []];
    WakeAlone(b);
    var c := Do(b, Wake);
    hide Do, Size, Span;
    WalkWhole(c);
    FlatSame(c.hist, s.hist, |s.hist|);
  }

  lemma AddAlone(s: State)
    requires Inv(s) && s.kernel.Idle?
    ensures var a := Do(s, Add);
            && Inv(a) && a.user == s.user && a.kernel.Waiting? && a.width == s.width && a.out == s.out
            && a.hist == s.hist + [[]] && Span(a.hist[Epoch(a)]) == 0
  {
    AddStep(s);
  }

  lemma WakeAlone(s: State)
    requires Inv(s) && s.kernel.Waiting? && s.seen == Epoch(s)
    ensures var a := Do(s, Wake); Inv(a) && a.kernel.Walking? && a.hist == s.hist && a.user == s.user
  {
    WakeIff(s);
    WakeStep(s);
  }
}
