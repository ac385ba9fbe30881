/**
 The receive queue shared by many kernel producers and one user-space consumer.

 One 32-bit word packs an 8-bit index and a 24-bit length.  A producer reserves
 slots of the half selected by the index with one atomic add, fills each slot and then
 writes the index into its commit byte.  The consumer exchanges the word to switch
 halves and takes a slot once its commit byte equals the index it swapped out.

 Steps are atomic and sequentially consistent; a run is any interleaving of them.
 Fields called history are not read by any step: they say what really happened.
 */
module RxQueue {
  import opened Seqs

  const LEN_LIMIT: nat := 0x100_0000
  const WORD_LIMIT: nat := 0x1_0000_0000
  const MAX_BURST: nat := 64

  type Pkt = nat

  function Index(word: nat): nat { word / LEN_LIMIT }

  function Len(word: nat): nat { word % LEN_LIMIT }

  /** Where slot `i` of half `half` lies.  Nothing keeps `i` below the size of the half. */
  function Address(qs: nat, half: nat, i: nat): nat
  {
    if half == 0 then i else qs + i
  }

  /** A producer; `epoch` is history: how many swaps preceded its reservation. */
  datatype Prod =
    | Idle
    | Checked(pkts: seq<Pkt>)
    | Writing(q: nat, epoch: nat, start: int, pkts: seq<Pkt>, sent: nat, filled: bool)

  /** The consumer inside or outside a read; `epoch` is history. */
  datatype Cons =
    | Ready
    | Resetting(q: nat, empty: bool, at: nat)
    | Loaded(q: nat)
    | Draining(q: nat, len: nat, pos: nat, epoch: nat)

  /** `commit` and `pay` are the shared memory of both halves; `out` is what the consumer got.
      History: `hist[e]` lists the packets reserved in epoch `e`, in slot order, and `resv[e]` the
      ranges of slots the producers took them for. */
  datatype State = State(qs: nat, word: nat, commit: seq<nat>, pay: seq<Pkt>, prods: seq<Prod>, cons: Cons,
                         out: seq<Pkt>, hist: seq<seq<Pkt>>, resv: seq<seq<Range>>)

  datatype Range = Range(start: int, len: nat)

  datatype Action =
    | Check(p: nat, pkts: seq<Pkt>)
    | Reserve(p: nat)
    | Fill(p: nat)
    | Commit(p: nat)
    | Return(p: nat)
    | Load
    | ResetSlot
    | ResetDone
    | Swap
    | Deliver
    | DrainDone

  /** Number of the current epoch. */
  function Epoch(s: State): int
  {
    |s.hist| - 1
  }

  // ------------------------------------------------------------------ the steps

  predicate Enabled(s: State, a: Action)
  {
    match a
    case Check(p, pkts) => p < |s.prods| && s.prods[p].Idle? && |pkts| <= MAX_BURST
    case Reserve(p) => p < |s.prods| && s.prods[p].Checked? && |s.hist| > 0
    case Fill(p) => p < |s.prods| && s.prods[p].Writing? && s.prods[p].sent < |s.prods[p].pkts| && !s.prods[p].filled
    case Commit(p) => p < |s.prods| && s.prods[p].Writing? && s.prods[p].filled
    case Return(p) => p < |s.prods| && s.prods[p].Writing? && s.prods[p].sent == |s.prods[p].pkts|
    case Load => s.cons.Ready?
    case ResetSlot => s.cons.Resetting? && s.cons.at < s.qs
    case ResetDone => s.cons.Resetting? && s.cons.at == s.qs
    case Swap => s.cons.Loaded? && |s.hist| > 0
    case Deliver =>
      && s.cons.Draining? && s.cons.pos < s.cons.len
      && Address(s.qs, s.cons.q % 2, s.cons.pos) < |s.commit|
      && Address(s.qs, s.cons.q % 2, s.cons.pos) < |s.pay|
      && s.commit[Address(s.qs, s.cons.q % 2, s.cons.pos)] == s.cons.q
    case DrainDone => s.cons.Draining? && s.cons.pos == s.cons.len
  }

  /** A store outside the two halves is lost to this memory. */
  function Store<T>(mem: seq<T>, at: int, v: T): seq<T>
  {
    if 0 <= at < |mem| then mem[at := v] else mem
  }

  function SlotAddress(s: State, w: Prod): int
    requires w.Writing?
  {
    var i := w.start + w.sent;
    if i < 0 then -1 else Address(s.qs, w.q % 2, i)
  }

  /** One more range in the current epoch. */
  function Taken(resv: seq<seq<Range>>, r: Range): seq<seq<Range>>
  {
    if resv == [] then resv else resv[|resv| - 1 := resv[|resv| - 1] + [r]]
  }

  function Next(s: State, a: Action): State
    requires Enabled(s, a)
  {
    match a
    case Check(p, pkts) =>
      if Len(s.word) > s.qs then s else s.(prods := s.prods[p := Checked(pkts)])
    case Reserve(p) =>
      var pkts := s.prods[p].pkts;
      var word := (s.word + |pkts|) % WORD_LIMIT;
      var w := Writing(Index(word), |s.hist| - 1, Len(word) - |pkts|, pkts, 0, false);
      s.(word := word, prods := s.prods[p := w], hist := s.hist[|s.hist| - 1 := s.hist[|s.hist| - 1] + pkts],
         resv := Taken(s.resv, Range(w.start, |pkts|)))
    case Fill(p) =>
      var w := s.prods[p];
      if w.start + w.sent > s.qs then s.(prods := s.prods[p := Idle])
      else s.(pay := Store(s.pay, SlotAddress(s, w), w.pkts[w.sent]), prods := s.prods[p := w.(filled := true)])
    case Commit(p) =>
      var w := s.prods[p];
      s.(commit := Store(s.commit, SlotAddress(s, w), w.q), prods := s.prods[p := w.(sent := w.sent + 1, filled := false)])
    case Return(p) => s.(prods := s.prods[p := Idle])
    case Load =>
      var q, empty := Index(s.word), Len(s.word) == 0;
      if (q + 1) % 256 < 2 then s.(cons := Resetting(q, empty, 0))
      else s.(cons := if empty then Ready else Loaded(q))
    case ResetSlot =>
      var c := s.cons;
      s.(commit := Store(s.commit, Address(s.qs, (c.q + 1) % 2, c.at), c.q % 2), cons := c.(at := c.at + 1))
    case ResetDone => s.(cons := if s.cons.empty then Ready else Loaded(s.cons.q))
    case Swap =>
      var q, len := s.cons.q, if Len(s.word) < s.qs then Len(s.word) else s.qs;
      s.(word := ((q + 1) % 256) * LEN_LIMIT, cons := Draining(q, len, 0, |s.hist| - 1), hist := s.hist + [[]], resv := s.resv + [[]])
    case Deliver =>
      var c := s.cons;
      s.(out := s.out + [s.pay[Address(s.qs, c.q % 2, c.pos)]], cons := c.(pos := c.pos + 1))
    case DrainDone => s.(cons := Ready)
  }

  /** The memory as it is meant to be set up: every slot of half `i` stamped with `!i`. */
  predicate Init(s: State)
  {
    && s.word == 0 && s.out == [] && s.hist == [[]] && s.resv == [[]] && s.cons == Ready
    && |s.commit| == |s.pay| == 2 * s.qs
    && (forall i :: 0 <= i < 2 * s.qs ==> s.commit[i] == if i < s.qs then 1 else 0)
    && (forall p :: 0 <= p < |s.prods| ==> s.prods[p] == Idle)
    && s.qs + MAX_BURST * |s.prods| < LEN_LIMIT
  }

  ghost predicate Step(s: State, s': State)
  {
    exists a :: Enabled(s, a) && s' == Next(s, a)
  }

  /** Any interleaving of steps from a freshly set up queue. */
  ghost predicate Run(t: seq<State>)
  {
    && |t| > 0 && Init(t[0])
    && forall i, j :: 0 <= i && j == i + 1 && j < |t| ==> Step(t[i], t[j])
  }

  // ------------------------------------------------------- the word never carries

  function NumChecked(prods: seq<Prod>): nat
  {
    if |prods| == 0 then 0 else NumChecked(prods[..|prods| - 1]) + if prods[|prods| - 1].Checked? then 1 else 0
  }

  lemma {:induction false} NumCheckedUpdate(prods: seq<Prod>, p: nat, w: Prod)
    requires p < |prods|
    ensures NumChecked(prods[p := w]) + (if prods[p].Checked? then 1 else 0) == NumChecked(prods) + (if w.Checked? then 1 else 0)
  {
    var n := |prods| - 1;
    if p < n {
      NumCheckedUpdate(prods[..n], p, w);
      assert prods[p := w][..n] == prods[..n][p := w];
    } else {
      assert prods[p := w][..n] == prods[..n];
    }
  }

  lemma {:induction false} NumCheckedBound(prods: seq<Prod>)
    ensures NumChecked(prods) <= |prods|
  {
    if |prods| > 0 {
      NumCheckedBound(prods[..|prods| - 1]);
    }
  }

  /** The word holds the epoch and the number of slots reserved in it; whoever has checked but not
      reserved yet is accounted for. */
  predicate WordOk(s: State)
  {
    && |s.hist| > 0
    && s.word == (Epoch(s) % 256) * LEN_LIMIT + |s.hist[Epoch(s)]|
    && |s.hist[Epoch(s)]| <= s.qs + MAX_BURST * (|s.prods| - NumChecked(s.prods))
    && s.qs + MAX_BURST * |s.prods| < LEN_LIMIT
    && (forall p :: 0 <= p < |s.prods| && s.prods[p].Checked? ==> |s.prods[p].pkts| <= MAX_BURST)
    && (s.cons.Resetting? || s.cons.Loaded? ==> s.cons.q == Epoch(s) % 256)
  }

  lemma WordParts(e: nat, n: nat)
    requires n < LEN_LIMIT
    ensures Index((e % 256) * LEN_LIMIT + n) == e % 256 && Len((e % 256) * LEN_LIMIT + n) == n
    ensures (e % 256) * LEN_LIMIT + n < WORD_LIMIT
  {
    var i := e % 256;
    assert (i * LEN_LIMIT + n) / LEN_LIMIT == i;
    assert (i * LEN_LIMIT + n) % LEN_LIMIT == n;
  }

  lemma WordSplit(s: State)
    requires WordOk(s)
    ensures |s.hist[Epoch(s)]| < LEN_LIMIT && Index(s.word) == Epoch(s) % 256 && Len(s.word) == |s.hist[Epoch(s)]|
  {
    NumCheckedBound(s.prods);
    WordParts(Epoch(s), |s.hist[Epoch(s)]|);
  }

  /** A reservation starts exactly where the previous one of its epoch ended, so the reservations
      of an epoch are disjoint and tile the slots up to its length. */
  lemma ReserveTiles(s: State, p: nat)
    requires WordOk(s) && Enabled(s, Reserve(p))
    ensures var s' := Next(s, Reserve(p));
            var w := s'.prods[p];
            && WordOk(s')
            && w.q == Epoch(s) % 256 && w.epoch == Epoch(s) && w.start == |s.hist[Epoch(s)]|
            && Len(s'.word) == w.start + |w.pkts|
  {
    var e, pkts := Epoch(s), s.prods[p].pkts;
    var n := |s.hist[e]| + |pkts|;
    var s' := Next(s, Reserve(p));
    NumCheckedUpdate(s.prods, p, s'.prods[p]);
    NumCheckedBound(s'.prods);
    assert n <= s.qs + MAX_BURST * (|s.prods| - NumChecked(s'.prods));
    WordParts(e, n);
  }

  lemma NextEpochWord(e: nat)
    ensures ((e % 256) + 1) % 256 == (e + 1) % 256
  {
  }

  lemma CheckKept(s: State, p: nat, pkts: seq<Pkt>)
    requires WordOk(s) && Enabled(s, Check(p, pkts))
    ensures WordOk(Next(s, Check(p, pkts)))
  {
    WordSplit(s);
    if Len(s.word) <= s.qs {
      NumCheckedUpdate(s.prods, p, Checked(pkts));
      NumCheckedBound(s.prods[p := Checked(pkts)]);
    }
  }

  lemma WriteKept(s: State, a: Action)
    requires WordOk(s) && (a.Fill? || a.Commit? || a.Return?) && Enabled(s, a)
    ensures WordOk(Next(s, a))
  {
    var s' := Next(s, a);
    NumCheckedUpdate(s.prods, a.p, s'.prods[a.p]);
  }

  lemma SwapKept(s: State)
    requires WordOk(s) && Enabled(s, Swap)
    ensures WordOk(Next(s, Swap))
  {
    NextEpochWord(Epoch(s));
    NumCheckedBound(s.prods);
  }

  /** Every step, in bounds or not, keeps the word and the epoch in agreement. */
  lemma WordKept(s: State, a: Action)
    requires WordOk(s) && Enabled(s, a)
    ensures WordOk(Next(s, a))
  {
    match a {
      case Check(p, pkts) => CheckKept(s, p, pkts);
      case Reserve(p) => ReserveTiles(s, p);
      case Fill(p) => WriteKept(s, a);
      case Commit(p) => WriteKept(s, a);
      case Return(p) => WriteKept(s, a);
      case Load => WordSplit(s);
      case Swap => SwapKept(s);
      case _ =>
    }
  }

  /** Over every run: the 24-bit length never carries into the index. */
  lemma {:induction false} WordNeverCarries(t: seq<State>, i: nat)
    requires Run(t) && i < |t|
    ensures WordOk(t[i])
  {
    if i > 0 {
      WordNeverCarries(t, i - 1);
      assert Step(t[i - 1], t[i]);
      var a :| Enabled(t[i - 1], a) && t[i] == Next(t[i - 1], a);
      WordKept(t[i - 1], a);
    } else {
      InitWord(t[0]);
    }
  }

  lemma InitWord(s: State)
    requires Init(s)
    ensures WordOk(s)
  {
    NoneChecked(s.prods);
  }

  lemma {:induction false} NoneChecked(prods: seq<Prod>)
    requires forall p :: 0 <= p < |prods| ==> prods[p] == Idle
    ensures NumChecked(prods) == 0
  {
    if |prods| > 0 {
      NoneChecked(prods[..|prods| - 1]);
    }
  }

  // ------------------------------------------------------ reservations tile an epoch

  /** The ranges follow one another from 0 to `n`. */
  predicate Tiled(rs: seq<Range>, n: int)
  {
    if rs == [] then n == 0
    else
      var r := rs[|rs| - 1];
      0 <= r.start && r.start + r.len == n && Tiled(rs[..|rs| - 1], r.start)
  }

  predicate Tiling(s: State)
  {
    |s.resv| == |s.hist| && forall e :: 0 <= e < |s.hist| ==> Tiled(s.resv[e], |s.hist[e]|)
  }

  lemma TilingKept(s: State, a: Action)
    requires WordOk(s) && Tiling(s) && Enabled(s, a)
    ensures Tiling(Next(s, a))
  {
    hide WordOk;
    if a.Reserve? {
      ReserveTiles(s, a.p);
      var e := Epoch(s);
      var rs, r := s.resv[e], Range(|s.hist[e]|, |s.prods[a.p].pkts|);
      assert (rs + [r])[..|rs|] == rs;
    }
  }

  /** Over every run, in bounds or not. */
  lemma {:induction false} RunTiling(t: seq<State>, i: nat)
    requires Run(t) && i < |t|
    ensures Tiling(t[i])
  {
    hide WordOk, Next, Enabled;
    if i > 0 {
      RunTiling(t, i - 1);
      WordNeverCarries(t, i - 1);
      assert Step(t[i - 1], t[i]);
      var a :| Enabled(t[i - 1], a) && t[i] == Next(t[i - 1], a);
      TilingKept(t[i - 1], a);
    }
  }

  predicate Within(r: Range, x: int)
  {
    r.start <= x < r.start + r.len
  }

  /** Some reservation holds slot `x`. */
  predicate Covered(rs: seq<Range>, x: int)
  {
    exists j :: 0 <= j < |rs| && Within(rs[j], x)
  }

  lemma {:induction false} TiledBelow(rs: seq<Range>, n: int, j: nat)
    requires Tiled(rs, n) && j < |rs|
    ensures 0 <= rs[j].start && rs[j].start + rs[j].len <= n
    decreases |rs|
  {
    if j < |rs| - 1 {
      TiledBelow(rs[..|rs| - 1], rs[|rs| - 1].start, j);
    }
  }

  lemma {:induction false} TiledApart(rs: seq<Range>, n: int, j: nat, k: nat)
    requires Tiled(rs, n) && j < k < |rs|
    ensures rs[j].start + rs[j].len <= rs[k].start
    decreases |rs|
  {
    if k < |rs| - 1 {
      TiledApart(rs[..|rs| - 1], rs[|rs| - 1].start, j, k);
    } else {
      TiledBelow(rs[..|rs| - 1], rs[|rs| - 1].start, j);
    }
  }

  lemma {:induction false} TiledCovers(rs: seq<Range>, n: int, x: int) returns (j: nat)
    requires Tiled(rs, n) && 0 <= x < n
    ensures j < |rs| && Within(rs[j], x)
    decreases |rs|
  {
    if x < rs[|rs| - 1].start {
      j := TiledCovers(rs[..|rs| - 1], rs[|rs| - 1].start, x);
    } else {
      j := |rs| - 1;
    }
  }

  /** Over every run: each slot below the length of an epoch belongs to exactly one of its
      reservations, no reservation reaches beyond it, and the length of the current epoch is
      that of the word. */
  lemma ReservationsTile(t: seq<State>, i: nat, e: nat)
    requires Run(t) && i < |t| && e < |t[i].hist|
    ensures |t[i].resv| == |t[i].hist|
    ensures forall x :: 0 <= x < |t[i].hist[e]| ==> Covered(t[i].resv[e], x)
    ensures forall j, k :: 0 <= j < k < |t[i].resv[e]| ==> t[i].resv[e][j].start + t[i].resv[e][j].len <= t[i].resv[e][k].start
    ensures forall j :: 0 <= j < |t[i].resv[e]| ==> 0 <= t[i].resv[e][j].start && t[i].resv[e][j].start + t[i].resv[e][j].len <= |t[i].hist[e]|
    ensures Len(t[i].word) == |t[i].hist[Epoch(t[i])]|
  {
    hide Run, Tiled, Len;
    RunTiling(t, i);
    WordNeverCarries(t, i);
    WordSplit(t[i]);
    var rs, n := t[i].resv[e], |t[i].hist[e]|;
    forall x | 0 <= x < n
      ensures Covered(rs, x)
    {
      var j := TiledCovers(rs, n, x);
    }
    forall j, k | 0 <= j < k < |rs|
      ensures rs[j].start + rs[j].len <= rs[k].start
    {
      TiledApart(rs, n, j, k);
    }
    forall j | 0 <= j < |rs|
      ensures 0 <= rs[j].start && rs[j].start + rs[j].len <= n
    {
      TiledBelow(rs, n, j);
    }
  }

  // ------------------------------------------------------------ commit bytes never lie

  /** No epoch reserved more than a half holds. */
  predicate Bounded(s: State)
  {
    forall e :: 0 <= e < |s.hist| ==> |s.hist[e]| <= s.qs
  }

  /** `c` cannot be mistaken for the index of epoch `e`: wrong parity, or an earlier index. */
  predicate Stale(c: nat, e: int)
  {
    c < 256 && (c % 2 != e % 2 || c < e % 256)
  }

  predicate Owns(w: Prod, e: int, i: int)
  {
    w.Writing? && w.epoch == e && w.start + w.sent <= i < w.start + |w.pkts|
  }

  /** Some producer has yet to commit slot `i` of epoch `e`. */
  predicate Pending(prods: seq<Prod>, e: int, i: int)
  {
    exists p :: 0 <= p < |prods| && Owns(prods[p], e, i)
  }

  /** A producer with slots still to write holds a reservation of the current epoch, or of the
      one being drained. */
  predicate WriterOk(s: State, w: Prod)
  {
    w.Writing? && w.sent < |w.pkts| ==>
      && (w.epoch == Epoch(s) || (s.cons.Draining? && w.epoch == s.cons.epoch == Epoch(s) - 1))
      && w.q == w.epoch % 256
      && 0 <= w.start && w.start + |w.pkts| <= |s.hist[w.epoch]|
      && (forall j :: 0 <= j < |w.pkts| ==> s.hist[w.epoch][w.start + j] == w.pkts[j])
      && (w.filled ==> SlotAddress(s, w) < |s.pay| && s.pay[SlotAddress(s, w)] == w.pkts[w.sent])
  }

  ghost predicate WritersOk(s: State)
  {
    && (forall p :: 0 <= p < |s.prods| ==> WriterOk(s, s.prods[p]))
    && (forall p :: 0 <= p < |s.prods| && s.prods[p].Writing? ==>
          s.prods[p].sent <= |s.prods[p].pkts| && (s.prods[p].filled ==> s.prods[p].sent < |s.prods[p].pkts|))
    && (forall p, q, e: int, i: int :: 0 <= p < q < |s.prods| ==> !(Owns(s.prods[p], e, i) && Owns(s.prods[q], e, i)))
  }

  /** A slot of an epoch in progress: committed with that epoch's index and packet, or not
      mistakable for committed. */
  predicate SlotOk(s: State, e: int, i: nat)
    requires 0 <= e < |s.hist| && i < s.qs && |s.commit| == |s.pay| == 2 * s.qs
  {
    var at := Address(s.qs, e % 2, i);
    if i < |s.hist[e]| && !Pending(s.prods, e, i) then s.commit[at] == e % 256 && s.pay[at] == s.hist[e][i]
    else Stale(s.commit[at], e)
  }

  predicate HalfOk(s: State, e: int)
    requires 0 <= e < |s.hist| && |s.commit| == |s.pay| == 2 * s.qs
  {
    forall i :: 0 <= i < s.qs ==> SlotOk(s, e, i)
  }

  /** Between drains, the half that comes next holds only indices not later than the last drained
      one, and none of its own parity once it has been reset. */
  predicate NextSlotOk(s: State, i: nat)
    requires i < s.qs && |s.commit| == 2 * s.qs
  {
    var c := s.commit[Address(s.qs, (Epoch(s) + 1) % 2, i)];
    && c < 256
    && (c % 2 != (Epoch(s) + 1) % 2 || c <= (Epoch(s) - 1) % 256)
    && (s.cons.Resetting? && i < s.cons.at ==> c % 2 != (Epoch(s) + 1) % 2)
    && (s.cons.Loaded? && (s.cons.q + 1) % 256 < 2 ==> c % 2 != (Epoch(s) + 1) % 2)
  }

  predicate NextHalfOk(s: State)
    requires |s.commit| == 2 * s.qs
  {
    forall i :: 0 <= i < s.qs ==> NextSlotOk(s, i)
  }

  predicate ConsumerOk(s: State)
    requires |s.hist| > 0
  {
    if s.cons.Draining? then
      && s.cons.epoch == Epoch(s) - 1 && s.cons.q == s.cons.epoch % 256
      && s.cons.pos <= s.cons.len == |s.hist[s.cons.epoch]|
      && (forall i :: 0 <= i < s.cons.pos ==> !Pending(s.prods, s.cons.epoch, i))
      && s.out == Flat(s.hist, s.cons.epoch) + s.hist[s.cons.epoch][..s.cons.pos]
    else
      s.out == Flat(s.hist, Epoch(s)) && (s.cons.Resetting? ==> s.cons.at <= s.qs)
  }

  ghost predicate Inv(s: State)
  {
    && WordOk(s) && Bounded(s)
    && |s.commit| == |s.pay| == 2 * s.qs
    && WritersOk(s)
    && ConsumerOk(s)
    && HalfOk(s, Epoch(s))
    && (if s.cons.Draining? then HalfOk(s, Epoch(s) - 1) else NextHalfOk(s))
  }

  /** What the consumer relies on: a slot of the batch being drained carries the reader's index
      exactly when its producer has written it completely, in exactly that epoch. */
  lemma CommitNeverLies(s: State, i: nat)
    requires Inv(s) && s.cons.Draining? && i < s.cons.len
    ensures var at := Address(s.qs, s.cons.q % 2, i);
            && (s.commit[at] == s.cons.q <==> !Pending(s.prods, s.cons.epoch, i))
            && (s.commit[at] == s.cons.q ==> s.pay[at] == s.hist[s.cons.epoch][i])
  {
    Parity(s.cons.epoch);
    assert SlotOk(s, s.cons.epoch, i);
  }

  lemma Parity(e: int)
    ensures (e % 256) % 2 == e % 2
  {
  }

  lemma InitInv(s: State)
    requires Init(s)
    ensures Inv(s)
  {
    InitWord(s);
  }

  // ------------------------------------------------------------- every step keeps it

  lemma PendingOther(prods: seq<Prod>, p: nat, w: Prod, e: int, i: int)
    requires p < |prods| && Owns(prods[p], e, i) == Owns(w, e, i)
    ensures Pending(prods, e, i) == Pending(prods[p := w], e, i)
  {
    if Pending(prods, e, i) {
      var q :| 0 <= q < |prods| && Owns(prods[q], e, i);
      assert Owns(prods[p := w][q], e, i);
    }
    if Pending(prods[p := w], e, i) {
      var q :| 0 <= q < |prods| && Owns(prods[p := w][q], e, i);
      assert Owns(prods[q], e, i);
    }
  }

  /** A producer changes without changing which slots it owns, and memory does not change. */
  lemma QuietKept(s: State, s': State, p: nat, w: Prod)
    requires Inv(s) && p < |s.prods| && s' == s.(prods := s.prods[p := w]) && WordOk(s')
    requires forall e: int, i: int :: Owns(s.prods[p], e, i) == Owns(w, e, i)
    requires WriterOk(s', w) && (w.Writing? ==> w.sent <= |w.pkts| && (w.filled ==> w.sent < |w.pkts|))
    ensures Inv(s')
  {
    forall e: int, i: int
      ensures Pending(s.prods, e, i) == Pending(s'.prods, e, i)
    {
      PendingOther(s.prods, p, w, e, i);
    }
    forall q | 0 <= q < |s'.prods|
      ensures WriterOk(s', s'.prods[q])
    {
      assert q == p || WriterOk(s, s.prods[q]);
    }
    SameHalf(s, s', Epoch(s));
    if s.cons.Draining? {
      SameHalf(s, s', Epoch(s) - 1);
    } else {
      NextHalfSame(s, s');
    }
  }

  /** A slot is judged by its own bytes, its history and who still owns it. */
  lemma SlotSame(s: State, s': State, e: int, i: nat)
    requires 0 <= e < |s.hist| && e < |s'.hist| && s'.hist[e] == s.hist[e] && s'.qs == s.qs && i < s.qs
    requires |s.commit| == |s.pay| == |s'.commit| == |s'.pay| == 2 * s.qs && SlotOk(s, e, i)
    requires Pending(s.prods, e, i) == Pending(s'.prods, e, i)
    requires var at := Address(s.qs, e % 2, i);
             s'.commit[at] == s.commit[at] && (Pending(s.prods, e, i) || s'.pay[at] == s.pay[at])
    ensures SlotOk(s', e, i)
  {
  }

  lemma SameHalf(s: State, s': State, e: int)
    requires 0 <= e < |s.hist| && |s.commit| == |s.pay| == 2 * s.qs && HalfOk(s, e)
    requires s'.qs == s.qs && s'.hist == s.hist && s'.commit == s.commit && s'.pay == s.pay
    requires forall i: int :: Pending(s.prods, e, i) == Pending(s'.prods, e, i)
    ensures HalfOk(s', e)
  {
    forall i | 0 <= i < s.qs
      ensures SlotOk(s', e, i)
    {
      assert SlotOk(s, e, i);
    }
  }

  lemma CheckStep(s: State, p: nat, pkts: seq<Pkt>)
    requires Inv(s) && Enabled(s, Check(p, pkts))
    ensures Inv(Next(s, Check(p, pkts)))
  {
    WordKept(s, Check(p, pkts));
    if Len(s.word) <= s.qs {
      QuietKept(s, Next(s, Check(p, pkts)), p, Checked(pkts));
    }
  }

  lemma ReturnStep(s: State, p: nat)
    requires Inv(s) && Enabled(s, Return(p))
    ensures Inv(Next(s, Return(p)))
  {
    WordKept(s, Return(p));
    QuietKept(s, Next(s, Return(p)), p, Idle);
  }

  lemma PendingMore(prods: seq<Prod>, p: nat, w: Prod, e: int, i: int)
    requires p < |prods| && !Owns(prods[p], e, i)
    ensures Pending(prods[p := w], e, i) <==> Pending(prods, e, i) || Owns(w, e, i)
  {
    if Owns(w, e, i) {
      assert Owns(prods[p := w][p], e, i);
    } else {
      PendingOther(prods, p, w, e, i);
    }
  }

  lemma ReservedWriters(s: State, p: nat)
    requires Inv(s) && Enabled(s, Reserve(p))
    ensures WritersOk(Next(s, Reserve(p)))
  {
    var s' := Next(s, Reserve(p));
    ReserveTiles(s, p);
    forall q | 0 <= q < |s'.prods|
      ensures WriterOk(s', s'.prods[q])
    {
      assert q == p || WriterOk(s, s.prods[q]);
    }
    forall q, r, e: int, i: int | 0 <= q < r < |s'.prods|
      ensures !(Owns(s'.prods[q], e, i) && Owns(s'.prods[r], e, i))
    {
      assert WriterOk(s, s.prods[q]) && WriterOk(s, s.prods[r]);
      assert !(Owns(s.prods[q], e, i) && Owns(s.prods[r], e, i));
    }
  }

  lemma ReserveHalf(s: State, p: nat, e: int)
    requires Inv(s) && Enabled(s, Reserve(p)) && Bounded(Next(s, Reserve(p)))
    requires 0 <= e <= Epoch(s) && HalfOk(s, e)
    ensures HalfOk(Next(s, Reserve(p)), e)
  {
    var s' := Next(s, Reserve(p));
    ReserveTiles(s, p);
    forall i | 0 <= i < s.qs
      ensures SlotOk(s', e, i)
    {
      PendingMore(s.prods, p, s'.prods[p], e, i);
      assert SlotOk(s, e, i);
    }
  }

  lemma ReserveStep(s: State, p: nat)
    requires Inv(s) && Enabled(s, Reserve(p)) && Bounded(Next(s, Reserve(p)))
    ensures Inv(Next(s, Reserve(p)))
  {
    var s' := Next(s, Reserve(p));
    ReserveTiles(s, p);
    ReservedWriters(s, p);
    ReserveHalf(s, p, Epoch(s));
    FlatSame(s.hist, s'.hist, Epoch(s));
    if s.cons.Draining? {
      ReserveHalf(s, p, Epoch(s) - 1);
      FlatSame(s.hist, s'.hist, Epoch(s) - 1);
      forall i | 0 <= i < s.cons.pos
        ensures !Pending(s'.prods, s.cons.epoch, i)
      {
        PendingMore(s.prods, p, s'.prods[p], s.cons.epoch, i);
      }
    } else {
      NextHalfSame(s, s');
    }
  }

  lemma NextHalfSame(s: State, s': State)
    requires |s.commit| == |s'.commit| == 2 * s.qs && s'.qs == s.qs && NextHalfOk(s)
    requires Epoch(s') == Epoch(s) && s'.cons == s.cons
    requires forall a :: 0 <= a < 2 * s.qs && (a < s.qs <==> (Epoch(s) + 1) % 2 == 0) ==> s'.commit[a] == s.commit[a]
    ensures NextHalfOk(s')
  {
    forall i | 0 <= i < s.qs
      ensures NextSlotOk(s', i)
    {
      assert NextSlotOk(s, i);
    }
  }

  /** Where producer `p` writes next: inside its half, and nowhere any other unfinished slot is. */
  lemma WriteTarget(s: State, p: nat)
    requires Inv(s) && p < |s.prods| && s.prods[p].Writing? && s.prods[p].sent < |s.prods[p].pkts|
    ensures var w := s.prods[p];
            && 0 <= w.epoch <= Epoch(s) && 0 <= w.start + w.sent < |s.hist[w.epoch]| <= s.qs
            && SlotAddress(s, w) == Address(s.qs, w.epoch % 2, w.start + w.sent) < 2 * s.qs
            && Owns(w, w.epoch, w.start + w.sent) && Pending(s.prods, w.epoch, w.start + w.sent)
            && (w.epoch == Epoch(s) || (s.cons.Draining? && w.epoch == Epoch(s) - 1))
  {
    var w := s.prods[p];
    assert WriterOk(s, w);
    Parity(w.epoch);
    assert Owns(s.prods[p], w.epoch, w.start + w.sent);
  }

  /** Different slots of two successive epochs lie at different places. */
  lemma AddressApart(qs: nat, e: int, i: nat, f: int, j: nat)
    requires i < qs && j < qs && -1 <= e - f <= 1 && (e != f || i != j)
    ensures Address(qs, e % 2, i) != Address(qs, f % 2, j)
  {
  }

  lemma OtherTarget(s: State, p: nat, q: nat)
    requires Inv(s) && p < |s.prods| && s.prods[p].Writing? && s.prods[p].sent < |s.prods[p].pkts|
    requires q < |s.prods| && s.prods[q].Writing? && s.prods[q].sent < |s.prods[q].pkts| && p != q
    ensures SlotAddress(s, s.prods[p]) != SlotAddress(s, s.prods[q])
  {
    WriteTarget(s, p);
    WriteTarget(s, q);
  }

  /** After a write by `p`, the other producers are as before. */
  lemma OthersOk(s: State, s': State, p: nat)
    requires Inv(s) && p < |s.prods| && s.prods[p].Writing? && s.prods[p].sent < |s.prods[p].pkts|
    requires |s'.prods| == |s.prods| && s'.prods == s.prods[p := s'.prods[p]] && s'.qs == s.qs && s'.cons == s.cons && s'.hist == s.hist
    requires |s'.pay| == |s.pay| && forall a :: 0 <= a < |s.pay| && a != SlotAddress(s, s.prods[p]) ==> s'.pay[a] == s.pay[a]
    requires WriterOk(s', s'.prods[p])
    ensures forall q :: 0 <= q < |s'.prods| ==> WriterOk(s', s'.prods[q])
  {
    forall q | 0 <= q < |s'.prods|
      ensures WriterOk(s', s'.prods[q])
    {
      if q != p {
        assert WriterOk(s, s.prods[q]);
        if s.prods[q].Writing? && s.prods[q].sent < |s.prods[q].pkts| {
          OtherTarget(s, p, q);
        }
      }
    }
  }

  lemma FillSlot(s: State, p: nat, e: int, i: nat)
    requires Inv(s) && Enabled(s, Fill(p)) && i < s.qs
    requires 0 <= e && (e == Epoch(s) || (s.cons.Draining? && e == Epoch(s) - 1)) && SlotOk(s, e, i)
    ensures var s' := Next(s, Fill(p)); |s'.pay| == |s.pay| && SlotOk(s', e, i)
  {
    var s', w := Next(s, Fill(p)), s.prods[p];
    WriteTarget(s, p);
    PendingOther(s.prods, p, s'.prods[p], e, i);
    if !(e == w.epoch && i == w.start + w.sent) {
      AddressApart(s.qs, e, i, w.epoch, w.start + w.sent);
    }
    SlotSame(s, s', e, i);
  }

  lemma FillHalf(s: State, p: nat, e: int)
    requires Inv(s) && Enabled(s, Fill(p))
    requires 0 <= e && (e == Epoch(s) || (s.cons.Draining? && e == Epoch(s) - 1)) && HalfOk(s, e)
    ensures var s' := Next(s, Fill(p)); |s'.pay| == |s.pay| && HalfOk(s', e)
  {
    var s' := Next(s, Fill(p));
    forall i | 0 <= i < s.qs
      ensures SlotOk(s', e, i)
    {
      FillSlot(s, p, e, i);
    }
  }

  lemma FillWriters(s: State, p: nat)
    requires Inv(s) && Enabled(s, Fill(p))
    ensures WritersOk(Next(s, Fill(p)))
  {
    hide HalfOk, NextHalfOk;
    var s' := Next(s, Fill(p));
    WriteTarget(s, p);
    assert WriterOk(s, s.prods[p]);
    OthersOk(s, s', p);
    OwnersFewer(s, s', p);
  }

  lemma FillStep(s: State, p: nat)
    requires Inv(s) && Enabled(s, Fill(p))
    ensures Inv(Next(s, Fill(p)))
  {
    var s' := Next(s, Fill(p));
    WordKept(s, Fill(p));
    WriteTarget(s, p);
    FillWriters(s, p);
    forall e: int, i: int
      ensures Pending(s.prods, e, i) == Pending(s'.prods, e, i)
    {
      PendingOther(s.prods, p, s'.prods[p], e, i);
    }
    FillHalf(s, p, Epoch(s));
    if s.cons.Draining? {
      FillHalf(s, p, Epoch(s) - 1);
    } else {
      NextHalfSame(s, s');
    }
  }

  /** A producer that owns no new slot keeps ownership exclusive. */
  lemma OwnersFewer(s: State, s': State, p: nat)
    requires WritersOk(s) && p < |s.prods| == |s'.prods| && s'.prods == s.prods[p := s'.prods[p]]
    requires forall e: int, i: int :: Owns(s'.prods[p], e, i) ==> Owns(s.prods[p], e, i)
    ensures forall q, r, e: int, i: int :: 0 <= q < r < |s'.prods| ==> !(Owns(s'.prods[q], e, i) && Owns(s'.prods[r], e, i))
  {
    forall q, r, e: int, i: int | 0 <= q < r < |s'.prods|
      ensures !(Owns(s'.prods[q], e, i) && Owns(s'.prods[r], e, i))
    {
      assert !(Owns(s.prods[q], e, i) && Owns(s.prods[r], e, i));
    }
  }

  lemma SoleOwner(s: State, p: nat, q: nat, e: int, i: int)
    requires WritersOk(s) && p < |s.prods| && q < |s.prods| && p != q && Owns(s.prods[p], e, i)
    ensures !Owns(s.prods[q], e, i)
  {
  }

  /** Committing releases exactly the committed slot. */
  lemma PendingLess(s: State, p: nat, e: int, i: int)
    requires Inv(s) && Enabled(s, Commit(p))
    ensures var w := s.prods[p];
            Pending(Next(s, Commit(p)).prods, e, i) <==>
            Pending(s.prods, e, i) && !(e == w.epoch && i == w.start + w.sent)
  {
    var s', w := Next(s, Commit(p)), s.prods[p];
    WriteTarget(s, p);
    if e == w.epoch && i == w.start + w.sent {
      forall q | 0 <= q < |s.prods|
        ensures !Owns(s'.prods[q], e, i)
      {
        if q != p {
          SoleOwner(s, p, q, e, i);
        }
      }
    } else {
      PendingOther(s.prods, p, s'.prods[p], e, i);
    }
  }

  lemma CommitSlot(s: State, p: nat, e: int, i: nat)
    requires Inv(s) && Enabled(s, Commit(p)) && i < s.qs
    requires 0 <= e && (e == Epoch(s) || (s.cons.Draining? && e == Epoch(s) - 1)) && SlotOk(s, e, i)
    ensures var s' := Next(s, Commit(p)); |s'.commit| == |s.commit| && SlotOk(s', e, i)
  {
    hide NextHalfOk, HalfOk;
    var s', w := Next(s, Commit(p)), s.prods[p];
    WriteTarget(s, p);
    PendingLess(s, p, e, i);
    if e == w.epoch && i == w.start + w.sent {
      assert WriterOk(s, w);
      assert s.hist[e][w.start + w.sent] == w.pkts[w.sent];
    } else {
      AddressApart(s.qs, e, i, w.epoch, w.start + w.sent);
      SlotSame(s, s', e, i);
    }
  }

  lemma CommitHalf(s: State, p: nat, e: int)
    requires Inv(s) && Enabled(s, Commit(p))
    requires 0 <= e && (e == Epoch(s) || (s.cons.Draining? && e == Epoch(s) - 1)) && HalfOk(s, e)
    ensures var s' := Next(s, Commit(p)); |s'.commit| == |s.commit| && HalfOk(s', e)
  {
    var s' := Next(s, Commit(p));
    forall i | 0 <= i < s.qs
      ensures SlotOk(s', e, i)
    {
      CommitSlot(s, p, e, i);
    }
  }

  lemma CommitWriters(s: State, p: nat)
    requires Inv(s) && Enabled(s, Commit(p))
    ensures WritersOk(Next(s, Commit(p)))
  {
    hide HalfOk, NextHalfOk;
    var s' := Next(s, Commit(p));
    WriteTarget(s, p);
    assert WriterOk(s, s.prods[p]);
    OthersOk(s, s', p);
    OwnersFewer(s, s', p);
  }

  lemma CommitConsumer(s: State, p: nat)
    requires Inv(s) && Enabled(s, Commit(p))
    ensures ConsumerOk(Next(s, Commit(p)))
  {
    var s' := Next(s, Commit(p));
    if s.cons.Draining? {
      forall i | 0 <= i < s.cons.pos
        ensures !Pending(s'.prods, s.cons.epoch, i)
      {
        PendingLess(s, p, s.cons.epoch, i);
      }
    }
  }

  lemma CommitNext(s: State, p: nat)
    requires Inv(s) && Enabled(s, Commit(p)) && !s.cons.Draining?
    ensures |Next(s, Commit(p)).commit| == |s.commit| && NextHalfOk(Next(s, Commit(p)))
  {
    WriteTarget(s, p);
    NextHalfSame(s, Next(s, Commit(p)));
  }

  lemma CommitStep(s: State, p: nat)
    requires Inv(s) && Enabled(s, Commit(p))
    ensures Inv(Next(s, Commit(p)))
  {
    WordKept(s, Commit(p));
    CommitWriters(s, p);
    CommitConsumer(s, p);
    CommitHalf(s, p, Epoch(s));
    if s.cons.Draining? {
      CommitHalf(s, p, Epoch(s) - 1);
    } else {
      CommitNext(s, p);
    }
  }

  lemma SameWriters(s: State, s': State)
    requires WritersOk(s) && s'.prods == s.prods && s'.qs == s.qs && s'.pay == s.pay && s'.hist == s.hist
    requires s'.cons == s.cons || !s.cons.Draining? || (s'.cons.Draining? && s'.cons.epoch == s.cons.epoch)
    ensures WritersOk(s')
  {
    forall p | 0 <= p < |s'.prods|
      ensures WriterOk(s', s'.prods[p])
    {
      assert WriterOk(s, s.prods[p]);
    }
  }

  lemma LoadStep(s: State)
    requires Inv(s) && Enabled(s, Load)
    ensures Inv(Next(s, Load))
  {
    var s' := Next(s, Load);
    WordKept(s, Load);
    SameWriters(s, s');
    SameHalf(s, s', Epoch(s));
    forall i | 0 <= i < s.qs
      ensures NextSlotOk(s', i)
    {
      assert NextSlotOk(s, i);
    }
  }

  lemma ResetSlotStep(s: State)
    requires Inv(s) && Enabled(s, ResetSlot)
    ensures Inv(Next(s, ResetSlot))
  {
    var s', e := Next(s, ResetSlot), Epoch(s);
    WordKept(s, ResetSlot);
    SameWriters(s, s');
    ResetOther(s);
    ResetNext(s);
  }

  lemma ResetOther(s: State)
    requires Inv(s) && Enabled(s, ResetSlot)
    ensures HalfOk(Next(s, ResetSlot), Epoch(s))
  {
    var s', e := Next(s, ResetSlot), Epoch(s);
    Parity(e);
    forall i | 0 <= i < s.qs
      ensures SlotOk(s', e, i)
    {
      assert SlotOk(s, e, i);
      SlotSame(s, s', e, i);
    }
  }

  lemma ResetNext(s: State)
    requires Inv(s) && Enabled(s, ResetSlot)
    ensures NextHalfOk(Next(s, ResetSlot))
  {
    hide WritersOk, HalfOk, Bounded, ConsumerOk;
    var s', e := Next(s, ResetSlot), Epoch(s);
    Parity(e);
    assert (s.cons.q + 1) % 2 == (e + 1) % 2 && s.cons.q % 2 != (e + 1) % 2;
    forall i | 0 <= i < s.qs
      ensures NextSlotOk(s', i)
    {
      assert NextSlotOk(s, i);
    }
  }

  lemma ResetDoneStep(s: State)
    requires Inv(s) && Enabled(s, ResetDone)
    ensures Inv(Next(s, ResetDone))
  {
    var s' := Next(s, ResetDone);
    WordKept(s, ResetDone);
    SameWriters(s, s');
    SameHalf(s, s', Epoch(s));
    forall i | 0 <= i < s.qs
      ensures NextSlotOk(s', i)
    {
      assert NextSlotOk(s, i);
    }
  }

  /** Two epochs later the index is larger by two, except across a wrap, where the reset has
      removed every index of the coming parity. */
  lemma StaleAcross(c: nat, e: int)
    requires c < 256 && (c % 2 != (e + 1) % 2 || c <= (e - 1) % 256)
    requires (e + 1) % 256 < 2 ==> c % 2 != (e + 1) % 2
    ensures Stale(c, e + 1)
  {
    if (e + 1) % 256 >= 2 {
      assert (e - 1) % 256 == (e + 1) % 256 - 2;
    }
  }

  lemma StaleNext(s: State, i: nat)
    requires WordOk(s) && s.cons.Loaded? && i < s.qs && |s.commit| == 2 * s.qs && NextSlotOk(s, i)
    ensures Stale(s.commit[Address(s.qs, (Epoch(s) + 1) % 2, i)], Epoch(s) + 1)
  {
    NextEpochWord(Epoch(s));
    StaleAcross(s.commit[Address(s.qs, (Epoch(s) + 1) % 2, i)], Epoch(s));
  }

  lemma SwapStep(s: State)
    requires Inv(s) && Enabled(s, Swap)
    ensures Inv(Next(s, Swap))
  {
    var s', e := Next(s, Swap), Epoch(s);
    WordKept(s, Swap);
    WordSplit(s);
    SwapWriters(s);
    FlatSame(s.hist, s'.hist, e);
    SwapHalves(s);
  }

  lemma SwapWriters(s: State)
    requires Inv(s) && Enabled(s, Swap)
    ensures WritersOk(Next(s, Swap))
  {
    var s' := Next(s, Swap);
    forall p | 0 <= p < |s'.prods|
      ensures WriterOk(s', s'.prods[p])
    {
      assert WriterOk(s, s.prods[p]);
    }
  }

  lemma SwapHalves(s: State)
    requires Inv(s) && Enabled(s, Swap)
    ensures HalfOk(Next(s, Swap), Epoch(s)) && HalfOk(Next(s, Swap), Epoch(s) + 1)
  {
    var s', e := Next(s, Swap), Epoch(s);
    var f := e + 1;
    forall i | 0 <= i < s.qs
      ensures SlotOk(s', e, i)
    {
      assert SlotOk(s, e, i);
      SlotSame(s, s', e, i);
    }
    forall i | 0 <= i < s.qs
      ensures SlotOk(s', f, i)
    {
      assert NextSlotOk(s, i);
      StaleNext(s, i);
    }
  }

  lemma DeliverStep(s: State)
    requires Inv(s) && Enabled(s, Deliver)
    ensures Inv(Next(s, Deliver))
  {
    var s', c := Next(s, Deliver), s.cons;
    WordKept(s, Deliver);
    SameWriters(s, s');
    CommitNeverLies(s, c.pos);
    assert s.hist[c.epoch][..c.pos + 1] == s.hist[c.epoch][..c.pos] + [s.hist[c.epoch][c.pos]];
    SameHalf(s, s', Epoch(s));
    SameHalf(s, s', Epoch(s) - 1);
  }

  lemma DrainDoneStep(s: State)
    requires Inv(s) && Enabled(s, DrainDone)
    ensures Inv(Next(s, DrainDone))
  {
    var s', e := Next(s, DrainDone), s.cons.epoch;
    WordKept(s, DrainDone);
    DrainedWriters(s);
    assert s.hist[e][..s.cons.pos] == s.hist[e];
    SameHalf(s, s', Epoch(s));
    DrainedHalf(s);
  }

  /** Once the batch is drained no producer is left in its epoch. */
  lemma DrainedWriters(s: State)
    requires Inv(s) && Enabled(s, DrainDone)
    ensures WritersOk(Next(s, DrainDone))
  {
    var s', e := Next(s, DrainDone), s.cons.epoch;
    forall p | 0 <= p < |s'.prods|
      ensures WriterOk(s', s'.prods[p])
    {
      var w := s.prods[p];
      assert WriterOk(s, w);
      if w.Writing? && w.sent < |w.pkts| {
        WriteTarget(s, p);
      }
    }
  }

  lemma DrainedHalf(s: State)
    requires Inv(s) && Enabled(s, DrainDone)
    ensures NextHalfOk(Next(s, DrainDone))
  {
    var s', e := Next(s, DrainDone), s.cons.epoch;
    forall i | 0 <= i < s.qs
      ensures NextSlotOk(s', i)
    {
      assert SlotOk(s, e, i);
      StaleLater(s.commit[Address(s.qs, e % 2, i)], e);
    }
  }

  lemma StaleLater(c: nat, e: int)
    requires c == e % 256 || Stale(c, e)
    ensures c < 256 && (e + 2) % 2 == e % 2 && (c % 2 != (e + 2) % 2 || c <= e % 256)
  {
  }

  /** Every step whose reservations stay inside a half keeps the whole invariant. */
  lemma StepKept(s: State, a: Action)
    requires Inv(s) && Enabled(s, a) && Bounded(Next(s, a))
    ensures Inv(Next(s, a))
  {
    match a {
      case Check(p, pkts) => CheckStep(s, p, pkts);
      case Reserve(p) => ReserveStep(s, p);
      case Fill(p) => FillStep(s, p);
      case Commit(p) => CommitStep(s, p);
      case Return(p) => ReturnStep(s, p);
      case Load => LoadStep(s);
      case ResetSlot => ResetSlotStep(s);
      case ResetDone => ResetDoneStep(s);
      case Swap => SwapStep(s);
      case Deliver => DeliverStep(s);
      case DrainDone => DrainDoneStep(s);
    }
  }

  lemma StepInv(s: State, s': State)
    requires Inv(s) && Step(s, s') && Bounded(s')
    ensures Inv(s')
  {
    var a :| Enabled(s, a) && s' == Next(s, a);
    StepKept(s, a);
  }

  /** Over every run in bounds the invariant holds, across any number of index wraps. */
  lemma {:induction false} RunInv(t: seq<State>, i: nat)
    requires Run(t) && i < |t| && forall j :: 0 <= j <= i ==> Bounded(t[j])
    ensures Inv(t[i])
  {
    if i > 0 {
      RunInv(t, i - 1);
      StepInv(t[i - 1], t[i]);
    } else {
      InitInv(t[0]);
    }
  }

  /** So over every run in bounds the commit byte of a slot being drained equals the reader's index exactly
      when the slot was completely written in that epoch. */
  lemma RunCommit(t: seq<State>, i: nat, slot: nat)
    requires Run(t) && i < |t| && forall j :: 0 <= j <= i ==> Bounded(t[j])
    requires t[i].cons.Draining? && slot < t[i].cons.len
    ensures var s := t[i];
            && |s.commit| == |s.pay| == 2 * s.qs && 0 <= s.cons.epoch < |s.hist| && slot < |s.hist[s.cons.epoch]| <= s.qs
            && (s.commit[Address(s.qs, s.cons.q % 2, slot)] == s.cons.q <==> !Pending(s.prods, s.cons.epoch, slot))
            && (s.commit[Address(s.qs, s.cons.q % 2, slot)] == s.cons.q ==>
                  s.pay[Address(s.qs, s.cons.q % 2, slot)] == s.hist[s.cons.epoch][slot])
  {
    RunInv(t, i);
    CommitNeverLies(t[i], slot);
  }

  /** The consumer receives exactly what was reserved, in reservation order: nothing is lost,
      repeated, reordered or read half-written. */
  lemma ReceivesInOrder(t: seq<State>, i: nat)
    requires Run(t) && i < |t| && forall j :: 0 <= j <= i ==> Bounded(t[j])
    ensures |t[i].hist| > 0 && t[i].out <= Flat(t[i].hist, |t[i].hist|)
    ensures t[i].cons.Ready? ==> t[i].out == Flat(t[i].hist, |t[i].hist| - 1)
  {
    RunInv(t, i);
    var s := t[i];
    var e := Epoch(s);
    assert Flat(s.hist, e + 1) == Flat(s.hist, e) + s.hist[e];
    if s.cons.Draining? {
      assert Flat(s.hist, e) == Flat(s.hist, e - 1) + s.hist[e - 1];
      assert s.out <= Flat(s.hist, e);
    }
  }

  // --------------------------------------------------------------- past the last slot

  /** The guard refuses only indices above the size of a half, so a slot is written inside its
      own half exactly when its index is not the size itself. */
  lemma WriteInsideIff(s: State, p: nat)
    requires Enabled(s, Fill(p)) && 0 <= s.prods[p].start
    ensures var w := s.prods[p];
            var i := w.start + w.sent;
            && (Next(s, Fill(p)).prods[p].Writing? <==> i <= s.qs)
            && ((if w.q % 2 == 0 then 0 else s.qs) <= SlotAddress(s, w) < (if w.q % 2 == 0 then s.qs else 2 * s.qs) <==> i < s.qs)
            && (i == s.qs && w.q % 2 == 0 ==> SlotAddress(s, w) == Address(s.qs, 1, 0))
  {
  }

  ghost predicate Reached(s: State)
  {
    exists t :: Run(t) && t[|t| - 1] == s
  }

  /** A set of states no step leaves. */
  ghost predicate StepClosed(r: iset<State>)
  {
    forall s, a :: s in r && Enabled(s, a) ==> Next(s, a) in r
  }

  lemma ReachedClosed()
    ensures StepClosed(iset s | Reached(s))
    ensures forall s :: Init(s) ==> Reached(s)
  {
    forall s, a | Reached(s) && Enabled(s, a)
      ensures Reached(Next(s, a))
    {
      ReachedStep(s, a);
    }
    forall s | Init(s)
      ensures Reached(s)
    {
      assert Run([s]);
    }
  }

  lemma ReachedStep(s: State, a: Action)
    requires Reached(s) && Enabled(s, a)
    ensures Reached(Next(s, a))
  {
    var s' := Next(s, a);
    var t :| Run(t) && t[|t| - 1] == s;
    var u := t + [s'];
    assert Step(s, s');
    assert Run(u) && u[|u| - 1] == s';
  }

  /** Two halves of one slot, two producers. */
  predicate Tiny(s: State, word: nat, a: Prod, b: Prod, cons: Cons)
  {
    && s.qs == 1 && |s.commit| == |s.pay| == |s.prods| == 2 && s.word == word
    && s.prods[0] == a && s.prods[1] == b && s.cons == cons
  }

  lemma OverflowFirst(reach: iset<State>, a: Prod) returns (s: State)
    requires StepClosed(reach) && (forall s :: Init(s) ==> s in reach) && a == Writing(0, 0, 0, [10, 11], 0, false)
    ensures s in reach && Tiny(s, 2, a.(sent := 1), Idle, Ready) && |s.hist| == 1 && s.hist[0] == [10, 11]
    ensures s.commit[0] == 0
  {
    s := State(1, 0, [1, 0], [0, 0], [Idle, Idle], Ready, [], [[]], [[]]);
    s := Next(s, Check(0, [10, 11]));
    assert Tiny(s, 0, Checked([10, 11]), Idle, Ready);
    s := Next(s, Reserve(0));
    assert Tiny(s, 2, a, Idle, Ready);
    s := Next(s, Fill(0));
    assert Tiny(s, 2, a.(filled := true), Idle, Ready);
    s := Next(s, Commit(0));
  }

  lemma OverflowSwap(reach: iset<State>, r: State, a: Prod) returns (s: State)
    requires StepClosed(reach) && r in reach && Tiny(r, 2, a, Idle, Ready) && |r.hist| == 1 && r.hist[0] == [10, 11] && r.commit[0] == 0
    ensures s in reach && Tiny(s, 0x100_0000, a, Idle, Draining(0, 1, 0, 0)) && |s.hist| == 2 && s.hist[0] == [10, 11]
    ensures s.hist[1] == [] && s.commit[0] == 0
  {
    s := Next(r, Load);
    assert Tiny(s, 2, a, Idle, Resetting(0, false, 0));
    s := Next(s, ResetSlot);
    assert Tiny(s, 2, a, Idle, Resetting(0, false, 1));
    s := Next(s, ResetDone);
    assert Tiny(s, 2, a, Idle, Loaded(0));
    s := Next(s, Swap);
  }

  lemma OverflowRefill(reach: iset<State>, r: State, a: Prod, b: Prod) returns (s: State)
    requires StepClosed(reach) && r in reach && Tiny(r, 0x100_0000, a, Idle, Draining(0, 1, 0, 0)) && |r.hist| == 2 && r.hist[0] == [10, 11]
    requires r.hist[1] == [] && r.commit[0] == 0 && b == Writing(1, 1, 0, [20], 0, false)
    ensures s in reach && Tiny(s, 0x100_0001, a, b, Ready) && |s.hist| == 2 && s.hist[0] == [10, 11] && s.hist[1] == [20]
  {
    s := Next(r, Deliver);
    s := Next(s, DrainDone);
    assert Tiny(s, 0x100_0000, a, Idle, Ready);
    s := Next(s, Check(1, [20]));
    assert Tiny(s, 0x100_0000, a, Checked([20]), Ready);
    s := Next(s, Reserve(1));
  }

  lemma OverflowLate(reach: iset<State>, r: State, a: Prod, b: Prod) returns (s: State)
    requires StepClosed(reach) && r in reach && Tiny(r, 0x100_0001, a, b, Ready) && |r.hist| == 2 && r.hist[0] == [10, 11] && r.hist[1] == [20]
    requires a == Writing(0, 0, 0, [10, 11], 1, false) && b == Writing(1, 1, 0, [20], 0, false)
    ensures s in reach && Tiny(s, 0x200_0000, a.(filled := true), b.(sent := 1), Draining(1, 1, 0, 1))
    ensures s.commit[1] == 1 && s.pay[1] == 11 && |s.hist| == 3 && s.hist[1] == [20]
  {
    s := Next(r, Fill(1));
    s := Next(s, Commit(1));
    assert Tiny(s, 0x100_0001, a, b.(sent := 1), Ready) && s.commit[1] == 1;
    s := Next(s, Fill(0));
    assert Tiny(s, 0x100_0001, a.(filled := true), b.(sent := 1), Ready) && s.pay[1] == 11;
    s := Next(s, Load);
    assert Tiny(s, 0x100_0001, a.(filled := true), b.(sent := 1), Loaded(1));
    s := Next(s, Swap);
  }

  lemma OverflowRun(reach: iset<State>) returns (s: State)
    requires StepClosed(reach) && forall s :: Init(s) ==> s in reach
    ensures s in reach && s.cons == Draining(1, 1, 0, 1) && |s.hist| == 3 && s.hist[1] == [20]
    ensures s.qs == 1 && |s.commit| == |s.pay| == 2 && s.commit[1] == 1 && s.pay[1] == 11
  {
    var a, b := Writing(0, 0, 0, [10, 11], 0, false), Writing(1, 1, 0, [20], 0, false);
    s := OverflowFirst(reach, a);
    s := OverflowSwap(reach, s, a.(sent := 1));
    s := OverflowRefill(reach, s, a.(sent := 1), b);
    s := OverflowLate(reach, s, a.(sent := 1), b);
  }

  /** Out of bounds the promise fails: the first producer's late write at index `queue_size`
      replaces a committed packet of the next epoch, whose commit byte still says ready. */
  lemma OverflowLies()
    ensures exists s :: Reached(s) && s.cons == Draining(1, 1, 0, 1) && |s.hist| == 3 && s.hist[1] == [20]
              && s.qs == 1 && |s.commit| == |s.pay| == 2 && s.commit[1] == 1 && s.pay[1] == 11
  {
    ReachedClosed();
    var s := OverflowRun(iset s | Reached(s));
  }
}
