/**
 Type signatures of PFQ/lang functions, kept as text: `a -> (b -> c) -> d`.

 The kernel never builds a tree.  It scans string views, strips redundant outer brackets and
 splits at the first arrow outside brackets.  `Syntax` is the grammar of well written
 signatures, brackets and blanks included; `Denote` forgets them.  The lemmas relate
 every operation on a text to the type it denotes.
 */
module Signature {
  import opened Seqs

  datatype Option<T> = None | Some(value: T)

  // ---------------------------------------------------------------- types and their texts

  /** A type: a constructor applied to words, or an arrow. */
  datatype Type = Base(words: seq<string>) | Fun(dom: Type, cod: Type)

  datatype Word = Word(letters: string, gap: nat)

  datatype Syntax =
    | Atom(lead: nat, words: seq<Word>)
    | Bracket(before: nat, inner: Syntax, after: nat)
    | Arrow(left: Syntax, right: Syntax)

  predicate IsSpace(c: char)
  {
    c == ' ' || '\t' <= c <= '\r'
  }

  predicate Letter(c: char)
  {
    !IsSpace(c) && c != '(' && c != ')' && c != '-' && c != '>'
  }

  predicate WordsOk(ws: seq<Word>)
  {
    |ws| > 0 && forall i :: 0 <= i < |ws| ==>
      |ws[i].letters| > 0 && (forall j :: 0 <= j < |ws[i].letters| ==> Letter(ws[i].letters[j])) && (ws[i].gap > 0 || i == |ws| - 1)
  }

  /** Arrows associate to the right: the left of an arrow is an atom or is in brackets. */
  predicate Wf(c: Syntax)
  {
    match c
    case Atom(_, ws) => WordsOk(ws)
    case Bracket(_, inner, _) => Wf(inner)
    case Arrow(l, r) => Wf(l) && !l.Arrow? && Wf(r)
  }

  function Blanks(n: nat): string { seq(n, _ => ' ') }

  function ShowWords(ws: seq<Word>): string
  {
    if ws == [] then "" else ws[0].letters + Blanks(ws[0].gap) + ShowWords(ws[1..])
  }

  function Show(c: Syntax): string
  {
    match c
    case Atom(lead, ws) => Blanks(lead) + ShowWords(ws)
    case Bracket(before, inner, after) => Blanks(before) + "(" + Show(inner) + ")" + Blanks(after)
    case Arrow(l, r) => Show(l) + "->" + Show(r)
  }

  function Letters(ws: seq<Word>): seq<string>
  {
    seq(|ws|, i requires 0 <= i < |ws| => ws[i].letters)
  }

  function Denote(c: Syntax): Type
  {
    match c
    case Atom(_, ws) => Base(Letters(ws))
    case Bracket(_, inner, _) => Denote(inner)
    case Arrow(l, r) => Fun(Denote(l), Denote(r))
  }

  // ------------------------------------------------------------ outermost brackets

  /** Bracket depth reached, deepest depth seen, and lowest depth of a '>'. */
  datatype Tally = Tally(depth: int, nest: int, low: Option<int>)

  function Lower(a: Option<int>, b: Option<int>): Option<int>
  {
    if a.None? then b else if b.None? then a else Some(if a.value < b.value then a.value else b.value)
  }

  function Shift(a: Option<int>, n: int): Option<int>
  {
    if a.None? then a else Some(a.value + n)
  }

  function Feed(t: Tally, c: char): Tally
  {
    if c == '(' then Tally(t.depth + 1, Max(t.nest, t.depth + 1), t.low)
    else if c == ')' then t.(depth := t.depth - 1)
    else if c == '>' then t.(low := Lower(t.low, Some(t.depth)))
    else t
  }

  function TallyOf(s: string): (t: Tally)
    ensures t.depth <= t.nest && 0 <= t.nest <= |s|
    ensures t.low.Some? ==> t.low.value <= t.nest
  {
    if s == "" then Tally(0, 0, None) else Feed(TallyOf(s[..|s| - 1]), s[|s| - 1])
  }

  function Outmost(s: string): int
  {
    var t := TallyOf(s);
    if t.low.Some? then t.low.value else t.nest
  }

  const INT_MAX: int := 0x7fff_ffff

  method CountOutmostBrackets(s: string) returns (n: int)
    requires |s| < INT_MAX
    ensures n == Outmost(s)
  {
    var red, nest, bracket := INT_MAX, 0, 0;
    var p := 0;
    while p != |s|
      invariant 0 <= p <= |s|
      invariant var t := TallyOf(s[..p]);
                bracket == t.depth && nest == t.nest && red == if t.low.Some? then t.low.value else INT_MAX
    {
      assert s[..p + 1][..p] == s[..p];
      if s[p] == '(' {
        bracket := bracket + 1;
        nest := Max(nest, bracket);
      } else if s[p] == ')' {
        bracket := bracket - 1;
      } else if s[p] == '>' {
        red := if bracket < red then bracket else red;
      }
      p := p + 1;
    }
    assert s[..p] == s;
    n := if red != INT_MAX then red else nest;
  }

  function JoinTally(a: Tally, b: Tally): Tally
  {
    Tally(a.depth + b.depth, Max(a.nest, a.depth + b.nest), Lower(a.low, Shift(b.low, a.depth)))
  }

  lemma FeedJoin(x: Tally, y: Tally, c: char)
    requires x.depth <= x.nest
    ensures Feed(JoinTally(x, y), c) == JoinTally(x, Feed(y, c))
  {
  }

  lemma JoinNothing(x: Tally)
    requires x.depth <= x.nest
    ensures JoinTally(x, Tally(0, 0, None)) == x
  {
  }

  lemma {:induction false} TallyConcat(a: string, b: string)
    ensures TallyOf(a + b) == JoinTally(TallyOf(a), TallyOf(b))
    decreases |b|
  {
    hide Feed, JoinTally;
    if b == "" {
      assert a + b == a;
      JoinNothing(TallyOf(a));
    } else {
      var n := |b| - 1;
      assert (a + b)[..|a + b| - 1] == a + b[..n];
      TallyConcat(a, b[..n]);
      FeedJoin(TallyOf(a), TallyOf(b[..n]), b[n]);
    }
  }

  lemma {:induction false} TallyPlain(s: string)
    requires forall i :: 0 <= i < |s| ==> s[i] != '(' && s[i] != ')' && s[i] != '>'
    ensures TallyOf(s) == Tally(0, 0, None)
  {
    if s != "" {
      TallyPlain(s[..|s| - 1]);
    }
  }

  /** A text made of words and blanks holds no bracket and no arrow. */
  lemma {:induction false} WordsPlain(ws: seq<Word>)
    requires ws == [] || WordsOk(ws)
    ensures forall i :: 0 <= i < |ShowWords(ws)| ==> Letter(ShowWords(ws)[i]) || ShowWords(ws)[i] == ' '
  {
    if ws != [] {
      WordsTail(ws);
      WordsPlain(ws[1..]);
    }
  }

  lemma WordsTail(ws: seq<Word>)
    requires WordsOk(ws)
    ensures ws[1..] == [] || WordsOk(ws[1..])
  {
    forall i | 0 <= i < |ws[1..]|
      ensures ws[1..][i] == ws[i + 1]
    {
    }
  }

  function Brackets(c: Syntax): nat
  {
    if c.Bracket? then 1 + Brackets(c.inner) else 0
  }

  /** What the syntax is once its outer brackets are gone: an atom or an arrow. */
  function Core(c: Syntax): Syntax
  {
    if c.Bracket? then Core(c.inner) else c
  }

  lemma TallyAtom(lead: nat, ws: seq<Word>)
    requires WordsOk(ws)
    ensures TallyOf(Blanks(lead) + ShowWords(ws)) == Tally(0, 0, None)
  {
    WordsPlain(ws);
    TallyPlain(Blanks(lead) + ShowWords(ws));
  }

  lemma {:induction false} TallyShow(c: Syntax)
    requires Wf(c)
    ensures TallyOf(Show(c)).depth == 0
    ensures Core(c).Arrow? ==> TallyOf(Show(c)).low == Some(Brackets(c))
    ensures !Core(c).Arrow? ==> TallyOf(Show(c)).low == None && TallyOf(Show(c)).nest == Brackets(c)
  {
    hide TallyOf, Blanks, ShowWords;
    match c
    case Atom(lead, ws) =>
      TallyAtom(lead, ws);
    case Bracket(before, inner, after) =>
      TallyShow(inner);
      TallyWrapped(before, Show(inner), after);
    case Arrow(l, r) =>
      TallyShow(l);
      TallyShow(r);
      TallyArrow(Show(l), Show(r));
  }

  lemma TallyWrapped(before: nat, s: string, after: nat)
    ensures TallyOf(Blanks(before) + "(" + s + ")" + Blanks(after))
            == var t := TallyOf(s); Tally(t.depth, Max(1, 1 + t.nest), Shift(t.low, 1))
  {
    TallyPlain(Blanks(before));
    TallyPlain(Blanks(after));
    TallyBracket(Blanks(before), s, Blanks(after));
  }

  lemma TallyChar(c: char)
    ensures TallyOf([c]) == Feed(Tally(0, 0, None), c)
  {
    assert [c][..0] == "";
  }

  lemma TallyBracket(u: string, s: string, v: string)
    requires TallyOf(u) == TallyOf(v) == Tally(0, 0, None)
    ensures TallyOf(u + "(" + s + ")" + v) == var t := TallyOf(s); Tally(t.depth, Max(1, 1 + t.nest), Shift(t.low, 1))
  {
    TallyChar('(');
    TallyChar(')');
    TallyConcat(u, "(");
    TallyConcat(u + "(", s);
    TallyConcat(u + "(" + s, ")");
    TallyConcat(u + "(" + s + ")", v);
  }

  lemma TallyArrow(l: string, r: string)
    requires TallyOf(l).depth == 0
    ensures TallyOf(l + "->" + r) == JoinTally(TallyOf(l).(low := Lower(TallyOf(l).low, Some(0))), TallyOf(r))
  {
    assert TallyOf("->") == Tally(0, 0, Some(0)) by {
      assert "->"[..1] == "-" && "-"[..0] == "";
    }
    TallyConcat(l, "->");
    TallyConcat(l + "->", r);
  }

  /** The count is exactly the number of brackets around the whole signature. */
  lemma OutmostCounts(c: Syntax)
    requires Wf(c)
    ensures Outmost(Show(c)) == Brackets(c)
  {
    TallyShow(c);
  }

  // --------------------------------------------------------------- trim and simplify

  function TrimLeft(s: string): (r: string)
    ensures |r| <= |s|
  {
    if s != "" && IsSpace(s[0]) then TrimLeft(s[1..]) else s
  }

  function TrimRight(s: string): (r: string)
    ensures |r| <= |s|
  {
    if s != "" && IsSpace(s[|s| - 1]) then TrimRight(s[..|s| - 1]) else s
  }

  function Trim(s: string): (r: string)
    ensures |r| <= |s|
  {
    TrimRight(TrimLeft(s))
  }

  /** What follows the first '('. */
  function AfterOpen(s: string): (r: string)
    ensures |r| <= |s|
  {
    if s == "" then "" else if s[0] == '(' then s[1..] else AfterOpen(s[1..])
  }

  /** What precedes the last ')'. */
  function BeforeClose(s: string): (r: string)
    ensures |r| <= |s|
  {
    if s == "" then "" else if s[|s| - 1] == ')' then s[..|s| - 1] else BeforeClose(s[..|s| - 1])
  }

  function Strips(s: string, n: nat): (r: string)
    ensures |r| <= |s|
    decreases n
  {
    if n == 0 then s else Strips(BeforeClose(AfterOpen(s)), n - 1)
  }

  function Simplify(s: string): (r: string)
    ensures |r| <= |s|
  {
    Trim(Strips(s, Max(0, Outmost(s))))
  }

  lemma SliceInit(s: string, begin: nat, end: nat)
    requires begin < end <= |s|
    ensures s[begin..end][..end - begin - 1] == s[begin..end - 1] && s[begin..end][end - begin - 1] == s[end - 1]
  {
  }

  method StringViewTrim(s: string) returns (r: string)
    ensures r == Trim(s)
  {
    var begin, end := 0, |s|;
    assert s[0..] == s;
    while begin != end && IsSpace(s[begin])
      invariant 0 <= begin <= end == |s| && TrimLeft(s) == TrimLeft(s[begin..])
    {
      assert s[begin..][1..] == s[begin + 1..];
      begin := begin + 1;
    }
    assert s[begin..end] == s[begin..];
    while end != begin && IsSpace(s[end - 1])
      invariant begin <= end <= |s| && Trim(s) == TrimRight(s[begin..end])
    {
      SliceInit(s, begin, end);
      end := end - 1;
    }
    r := s[begin..end];
  }

  /** Advances past the first '(' of the view, or to its end. */
  method SkipOpen(s: string, from: nat, end: nat) returns (begin: nat)
    requires from <= end <= |s|
    ensures begin <= end && s[begin..end] == AfterOpen(s[from..end])
  {
    begin := from;
    var found := false;
    while begin < end && !found
      invariant from <= begin <= end
      invariant AfterOpen(s[from..end]) == if found then s[begin..end] else AfterOpen(s[begin..end])
      decreases end - begin
    {
      assert s[begin..end][1..] == s[begin + 1..end];
      found := s[begin] == '(';
      begin := begin + 1;
    }
    assert !found ==> s[begin..end] == "";
  }

  /** Retreats before the last ')' of the view, or to its beginning. */
  method SkipClose(s: string, begin: nat, to: nat) returns (end: nat)
    requires begin <= to <= |s|
    ensures begin <= end <= |s| && s[begin..end] == BeforeClose(s[begin..to])
  {
    end := to;
    var found := false;
    while end != begin && !found
      invariant begin <= end <= to
      invariant BeforeClose(s[begin..to]) == if found then s[begin..end] else BeforeClose(s[begin..end])
      decreases end - begin
    {
      assert s[begin..end][..end - begin - 1] == s[begin..end - 1];
      end := end - 1;
      found := s[end] == ')';
    }
    assert !found ==> s[begin..end] == "";
  }

  method SimplifySignature(s: string) returns (r: string)
    requires |s| < INT_MAX
    ensures r == Simplify(s)
  {
    var red := CountOutmostBrackets(s);
    var begin, end, n := 0, |s|, 0;
    assert s[begin..end] == s;
    while n < red
      invariant 0 <= begin <= end <= |s| && 0 <= n <= Max(0, red)
      invariant Strips(s, Max(0, red)) == Strips(s[begin..end], Max(0, red) - n)
    {
      ghost var view := s[begin..end];
      begin := SkipOpen(s, begin, end);
      end := SkipClose(s, begin, end);
      assert s[begin..end] == BeforeClose(AfterOpen(view));
      n := n + 1;
    }
    r := StringViewTrim(s[begin..end]);
  }

  /** On a well written signature every round of stripping finds its two brackets. */
  lemma {:induction false} StripsFind(c: Syntax, k: nat)
    requires k < Brackets(c)
    ensures '(' in Strips(Show(c), k) && ')' in AfterOpen(Strips(Show(c), k))
    decreases k
  {
    var rest := Show(c.inner) + ")" + Blanks(c.after);
    assert Show(c) == Blanks(c.before) + "(" + rest;
    AfterOpenBlanks(c.before, rest);
    if k == 0 {
      assert Show(c)[c.before] == '(' && rest[|Show(c.inner)|] == ')';
    } else {
      BeforeCloseBlanks(Show(c.inner), c.after);
      StripsFind(c.inner, k - 1);
    }
  }

  lemma {:induction false} AfterOpenBlanks(n: nat, s: string)
    ensures AfterOpen(Blanks(n) + "(" + s) == s
  {
    var t := Blanks(n) + "(" + s;
    if n > 0 {
      assert t[1..] == Blanks(n - 1) + "(" + s;
      AfterOpenBlanks(n - 1, s);
    } else {
      assert t[1..] == s;
    }
  }

  lemma {:induction false} BeforeCloseBlanks(s: string, n: nat)
    ensures BeforeClose(s + ")" + Blanks(n)) == s
  {
    var t := s + ")" + Blanks(n);
    if n > 0 {
      assert t[..|t| - 1] == s + ")" + Blanks(n - 1);
      BeforeCloseBlanks(s, n - 1);
    } else {
      assert t[..|t| - 1] == s;
    }
  }

  lemma {:induction false} StripsShow(c: Syntax)
    ensures Strips(Show(c), Brackets(c)) == Show(Core(c))
  {
    if c.Bracket? {
      var rest := Show(c.inner) + ")" + Blanks(c.after);
      assert Show(c) == Blanks(c.before) + "(" + rest;
      AfterOpenBlanks(c.before, rest);
      BeforeCloseBlanks(Show(c.inner), c.after);
      StripsShow(c.inner);
    }
  }

  /** The syntax without blanks at its left end. */
  function LeftFlush(c: Syntax): Syntax
  {
    match c
    case Atom(_, ws) => Atom(0, ws)
    case Bracket(_, inner, after) => Bracket(0, inner, after)
    case Arrow(l, r) => Arrow(LeftFlush(l), r)
  }

  function LastFlush(ws: seq<Word>): seq<Word>
  {
    if ws == [] then [] else ws[..|ws| - 1] + [ws[|ws| - 1].(gap := 0)]
  }

  function RightFlush(c: Syntax): Syntax
  {
    match c
    case Atom(lead, ws) => Atom(lead, LastFlush(ws))
    case Bracket(before, inner, _) => Bracket(before, inner, 0)
    case Arrow(l, r) => Arrow(l, RightFlush(r))
  }

  /** The syntax left by simplification. */
  function Simple(c: Syntax): Syntax
  {
    RightFlush(LeftFlush(Core(c)))
  }

  lemma {:induction false} TrimLeftBlanks(n: nat, s: string)
    requires s != "" && !IsSpace(s[0])
    ensures TrimLeft(Blanks(n) + s) == s
  {
    var t := Blanks(n) + s;
    if n > 0 {
      assert t[1..] == Blanks(n - 1) + s;
      TrimLeftBlanks(n - 1, s);
    } else {
      assert t == s;
    }
  }

  lemma {:induction false} TrimLeftConcat(a: string, b: string)
    requires TrimLeft(a) != ""
    ensures TrimLeft(a + b) == TrimLeft(a) + b
  {
    if IsSpace(a[0]) {
      assert (a + b)[1..] == a[1..] + b;
      TrimLeftConcat(a[1..], b);
    }
  }

  lemma {:induction false} TrimRightBlanks(s: string, n: nat)
    requires s != "" && !IsSpace(s[|s| - 1])
    ensures TrimRight(s + Blanks(n)) == s
  {
    var t := s + Blanks(n);
    if n > 0 {
      assert t[..|t| - 1] == s + Blanks(n - 1);
      TrimRightBlanks(s, n - 1);
    } else {
      assert t == s;
    }
  }

  lemma {:induction false} TrimRightConcat(a: string, b: string)
    requires TrimRight(b) != ""
    ensures TrimRight(a + b) == a + TrimRight(b)
  {
    if IsSpace(b[|b| - 1]) {
      assert (a + b)[..|a + b| - 1] == a + b[..|b| - 1];
      TrimRightConcat(a, b[..|b| - 1]);
    }
  }

  lemma TrimLeftBracket(n: nat, s: string, t: string)
    ensures TrimLeft(Blanks(n) + "(" + s + ")" + t) == "(" + s + ")" + t
  {
    var rest := "(" + s + ")" + t;
    assert Blanks(n) + "(" + s + ")" + t == Blanks(n) + rest;
    TrimLeftBlanks(n, rest);
  }

  lemma {:induction false} ShowLeftFlush(c: Syntax)
    requires Wf(c)
    ensures TrimLeft(Show(c)) == Show(LeftFlush(c)) != "" && Wf(LeftFlush(c)) && Denote(LeftFlush(c)) == Denote(c)
    ensures Show(LeftFlush(c))[0] == '(' || Letter(Show(LeftFlush(c))[0])
  {
    match c
    case Atom(lead, ws) =>
      assert ShowWords(ws)[0] == ws[0].letters[0];
      TrimLeftBlanks(lead, ShowWords(ws));
      assert Show(LeftFlush(c)) == ShowWords(ws);
    case Bracket(before, inner, after) =>
      TrimLeftBracket(before, Show(inner), Blanks(after));
      assert Blanks(0) + "(" + Show(inner) == "(" + Show(inner);
    case Arrow(l, r) =>
      ShowLeftFlush(l);
      var rest := "->" + Show(r);
      assert Show(c) == Show(l) + rest;
      TrimLeftConcat(Show(l), rest);
      assert Show(LeftFlush(c)) == Show(LeftFlush(l)) + rest;
  }

  lemma ShowOne(w: Word)
    ensures ShowWords([w]) == w.letters + Blanks(w.gap)
    ensures w.gap == 0 ==> ShowWords([w]) == w.letters
  {
    assert [w][1..] == [];
  }

  lemma LastFlushOk(ws: seq<Word>)
    requires WordsOk(ws)
    ensures WordsOk(LastFlush(ws)) && Letters(LastFlush(ws)) == Letters(ws)
  {
  }

  lemma {:induction false} ShowLastFlush(ws: seq<Word>)
    requires WordsOk(ws)
    ensures TrimRight(ShowWords(ws)) == ShowWords(LastFlush(ws)) != ""
  {
    var w, rest := ws[0], ws[1..];
    if rest == [] {
      assert ws == [w] && LastFlush(ws) == [w.(gap := 0)];
      ShowOne(w);
      ShowOne(w.(gap := 0));
      TrimRightBlanks(w.letters, w.gap);
    } else {
      WordsTail(ws);
      ShowLastFlush(rest);
      assert LastFlush(ws)[1..] == LastFlush(rest) && LastFlush(ws)[0] == w;
      TrimRightConcat(w.letters + Blanks(w.gap), ShowWords(rest));
    }
  }

  lemma {:induction false} ShowRightFlush(c: Syntax)
    requires Wf(c)
    ensures TrimRight(Show(c)) == Show(RightFlush(c)) != "" && Wf(RightFlush(c)) && Denote(RightFlush(c)) == Denote(c)
  {
    match c
    case Atom(lead, ws) =>
      ShowLastFlush(ws);
      LastFlushOk(ws);
      TrimRightConcat(Blanks(lead), ShowWords(ws));
    case Bracket(before, inner, after) =>
      var rest := Blanks(before) + "(" + Show(inner) + ")";
      TrimRightBlanks(rest, after);
      assert Show(RightFlush(c)) == rest + Blanks(0);
    case Arrow(l, r) =>
      ShowRightFlush(r);
      var rest := Show(l) + "->";
      TrimRightConcat(rest, Show(r));
  }

  lemma {:induction false} CoreSame(c: Syntax)
    requires Wf(c)
    ensures Wf(Core(c)) && !Core(c).Bracket? && Denote(Core(c)) == Denote(c)
  {
    if c.Bracket? {
      CoreSame(c.inner);
    }
  }

  /** Simplification strips exactly the redundant brackets and blanks and keeps the type. */
  lemma SimplifyShow(c: Syntax)
    requires Wf(c)
    ensures Simplify(Show(c)) == Show(Simple(c)) != ""
    ensures Wf(Simple(c)) && !Simple(c).Bracket? && Denote(Simple(c)) == Denote(c)
  {
    OutmostCounts(c);
    StripsShow(c);
    CoreSame(c);
    ShowLeftFlush(Core(c));
    ShowRightFlush(LeftFlush(Core(c)));
  }

  /** Simplifying twice does no more than once. */
  lemma SimplifyIdempotent(c: Syntax)
    requires Wf(c)
    ensures Simplify(Simplify(Show(c))) == Simplify(Show(c))
  {
    SimplifyShow(c);
    SimplifyShow(Simple(c));
    SimpleTwice(c);
  }

  lemma FlushTwice(c: Syntax)
    requires Wf(c) && !c.Bracket? && c == LeftFlush(c)
    ensures Simple(RightFlush(c)) == RightFlush(c)
  {
    RightFlushTwice(c);
    LeftRight(c);
  }

  lemma {:induction false} RightFlushTwice(c: Syntax)
    requires Wf(c)
    ensures RightFlush(RightFlush(c)) == RightFlush(c)
  {
    if c.Arrow? {
      RightFlushTwice(c.right);
    }
  }

  lemma {:induction false} LeftRight(c: Syntax)
    requires Wf(c) && c == LeftFlush(c)
    ensures LeftFlush(RightFlush(c)) == RightFlush(c)
  {
  }

  lemma {:induction false} LeftFlushTwice(c: Syntax)
    ensures LeftFlush(LeftFlush(c)) == LeftFlush(c)
  {
    if c.Arrow? {
      LeftFlushTwice(c.left);
    }
  }

  lemma SimpleTwice(c: Syntax)
    requires Wf(c)
    ensures Simple(Simple(c)) == Simple(c)
  {
    CoreSame(c);
    ShowLeftFlush(Core(c));
    LeftFlushTwice(Core(c));
    FlushTwice(LeftFlush(Core(c)));
  }

  // --------------------------------------------------------------------- arrows

  /** The scan for an arrow from position `i`: 0 outside brackets, 1 after a '-', 2 inside. */
  function Seek(s: string, i: nat, state: int, bracket: int): (r: Option<nat>)
    requires i <= |s|
    ensures r.Some? ==> i <= r.value < |s| && s[r.value] == '>' && (state == 1 || i < r.value)
    decreases |s| - i
  {
    if i == |s| then None
    else if state == 0 then
      if s[i] == '-' then Seek(s, i + 1, 1, bracket)
      else if s[i] == '(' then Seek(s, i + 1, 2, bracket + 1)
      else Seek(s, i + 1, 0, bracket)
    else if state == 1 then
      if s[i] == '>' then Some(i) else None
    else
      if s[i] == '(' then Seek(s, i + 1, 2, bracket + 1)
      else if s[i] == ')' then Seek(s, i + 1, if bracket == 1 then 0 else 2, bracket - 1)
      else Seek(s, i + 1, 2, bracket)
  }

  method FindNextArrow(s: string) returns (r: Option<nat>)
    ensures r == Seek(s, 0, 0, 0)
  {
    var state, bracket, p := 0, 0, 0;
    while p != |s|
      invariant 0 <= p <= |s| && 0 <= state <= 2
      invariant Seek(s, 0, 0, 0) == Seek(s, p, state, bracket)
    {
      if state == 0 {
        if s[p] == '-' {
          state := 1;
        } else if s[p] == '(' {
          bracket := bracket + 1;
          state := 2;
        }
      } else if state == 1 {
        if s[p] == '>' {
          return Some(p);
        }
        return None;
      } else {
        if s[p] == '(' {
          bracket := bracket + 1;
        } else if s[p] == ')' {
          bracket := bracket - 1;
          if bracket == 0 {
            state := 0;
          }
        }
      }
      p := p + 1;
    }
    return None;
  }

  /** Text without '-' and brackets does not concern the scan. */
  lemma {:induction false} SeekPlain(s: string, i: nat, j: nat, state: int, bracket: int)
    requires i <= j <= |s| && (state == 0 || state == 2)
    requires forall k :: i <= k < j ==> s[k] != '-' && s[k] != '(' && s[k] != ')'
    ensures Seek(s, i, state, bracket) == Seek(s, j, state, bracket)
    decreases j - i
  {
    if i < j {
      SeekPlain(s, i + 1, j, state, bracket);
    }
  }

  /** `t` stands in `s` at `i`. */
  predicate At(s: string, i: nat, t: string)
  {
    i + |t| <= |s| && s[i..i + |t|] == t
  }

  lemma AtSplit(s: string, i: nat, a: string, b: string)
    requires At(s, i, a + b)
    ensures At(s, i, a) && At(s, i + |a|, b)
  {
    var t := s[i..i + |a + b|];
    assert s[i..i + |a|] == t[..|a|] == a;
    assert s[i + |a|..i + |a| + |b|] == t[|a|..] == b;
  }

  lemma SeekText(s: string, i: nat, t: string, state: int, bracket: int)
    requires At(s, i, t) && (state == 0 || state == 2)
    requires forall k :: 0 <= k < |t| ==> Letter(t[k]) || t[k] == ' '
    ensures Seek(s, i, state, bracket) == Seek(s, i + |t|, state, bracket)
  {
    forall k | i <= k < i + |t|
      ensures Letter(s[k]) || s[k] == ' '
    {
      assert s[k] == s[i..i + |t|][k - i];
    }
    SeekPlain(s, i, i + |t|, state, bracket);
  }

  lemma AtFirst(s: string, i: nat, t: string)
    requires At(s, i, t) && t != ""
    ensures s[i] == t[0]
  {
    assert s[i] == s[i..i + |t|][0];
  }

  lemma SeekOpen(s: string, i: nat, n: nat, state: int, bracket: int)
    requires At(s, i, Blanks(n) + "(") && (state == 0 || state == 2)
    ensures Seek(s, i, state, bracket) == Seek(s, i + n + 1, 2, bracket + 1)
  {
    AtSplit(s, i, Blanks(n), "(");
    SeekText(s, i, Blanks(n), state, bracket);
    AtFirst(s, i + n, "(");
  }

  lemma SeekClose(s: string, i: nat, n: nat, state: int, bracket: int)
    requires At(s, i, ")" + Blanks(n)) && ((state == 0 && bracket == 0) || (state == 2 && bracket >= 1))
    ensures Seek(s, i, 2, bracket + 1) == Seek(s, i + 1 + n, state, bracket)
  {
    AtSplit(s, i, ")", Blanks(n));
    AtFirst(s, i, ")");
    SeekText(s, i + 1, Blanks(n), state, bracket);
  }

  lemma SeekArrow(s: string, i: nat, bracket: int)
    requires At(s, i, "->")
    ensures Seek(s, i, 2, bracket) == Seek(s, i + 2, 2, bracket)
  {
    assert s[i] == s[i..i + 2][0] && s[i + 1] == s[i..i + 2][1];
    assert Seek(s, i, 2, bracket) == Seek(s, i + 1, 2, bracket);
  }

  lemma AtBracket(s: string, i: nat, c: Syntax)
    requires c.Bracket? && At(s, i, Show(c))
    ensures At(s, i, Blanks(c.before) + "(")
    ensures At(s, i + c.before + 1, Show(c.inner))
    ensures At(s, i + c.before + 1 + |Show(c.inner)|, ")" + Blanks(c.after))
    ensures |Show(c)| == c.before + 1 + |Show(c.inner)| + 1 + c.after
  {
    var open, body, close := Blanks(c.before) + "(", Show(c.inner), ")" + Blanks(c.after);
    assert Show(c) == open + body + close;
    AtSplit(s, i, open + body, close);
    AtSplit(s, i, open, body);
  }

  lemma AtArrow(s: string, i: nat, c: Syntax)
    requires c.Arrow? && At(s, i, Show(c))
    ensures At(s, i, Show(c.left)) && At(s, i + |Show(c.left)|, "->") && At(s, i + |Show(c.left)| + 2, Show(c.right))
    ensures |Show(c)| == |Show(c.left)| + 2 + |Show(c.right)|
  {
    AtSplit(s, i, Show(c.left) + "->", Show(c.right));
    AtSplit(s, i, Show(c.left), "->");
  }

  /** Inside brackets a whole signature is passed over. */
  lemma {:induction false} SeekNested(s: string, i: nat, c: Syntax, bracket: int)
    requires Wf(c) && At(s, i, Show(c)) && bracket >= 1
    ensures Seek(s, i, 2, bracket) == Seek(s, i + |Show(c)|, 2, bracket)
    decreases c
  {
    hide Seek;
    match c
    case Atom(lead, ws) =>
      WordsPlain(ws);
      SeekText(s, i, Show(c), 2, bracket);
    case Bracket(before, inner, after) =>
      SeekBracket(s, i, c, 2, bracket);
    case Arrow(l, r) =>
      AtArrow(s, i, c);
      SeekNested(s, i, l, bracket);
      SeekArrow(s, i + |Show(l)|, bracket);
      SeekNested(s, i + |Show(l)| + 2, r, bracket);
  }

  lemma {:induction false} SeekBracket(s: string, i: nat, c: Syntax, state: int, bracket: int)
    requires Wf(c) && c.Bracket? && At(s, i, Show(c))
    requires (state == 0 && bracket == 0) || (state == 2 && bracket >= 1)
    ensures Seek(s, i, state, bracket) == Seek(s, i + |Show(c)|, state, bracket)
    decreases c, 0
  {
    hide Show, Seek;
    AtBracket(s, i, c);
    SeekOpen(s, i, c.before, state, bracket);
    SeekNested(s, i + c.before + 1, c.inner, bracket + 1);
    SeekClose(s, i + c.before + 1 + |Show(c.inner)|, c.after, state, bracket);
  }

  /** Outside brackets an atom or a bracketed signature is passed over. */
  lemma SeekOver(s: string, i: nat, c: Syntax)
    requires Wf(c) && !c.Arrow? && At(s, i, Show(c))
    ensures Seek(s, i, 0, 0) == Seek(s, i + |Show(c)|, 0, 0)
  {
    if c.Atom? {
      WordsPlain(c.words);
      SeekText(s, i, Show(c), 0, 0);
    } else {
      SeekBracket(s, i, c, 0, 0);
    }
  }

  function Head(s: string): string
  {
    var p := Seek(s, 0, 0, 0);
    if p.None? then s else s[..p.value - 1]
  }

  function Tail(s: string): (r: string)
    ensures s != "" ==> |r| < |s|
  {
    var p := Seek(s, 0, 0, 0);
    if p.None? then "" else s[p.value + 1..]
  }

  /** The text is split at the arrow of its syntax, and nowhere else. */
  lemma HeadTailShow(c: Syntax)
    requires Wf(c)
    ensures c.Arrow? ==> Head(Show(c)) == Show(c.left) && Tail(Show(c)) == Show(c.right)
    ensures !c.Arrow? ==> Head(Show(c)) == Show(c) && Tail(Show(c)) == ""
  {
    hide Seek, Head, Tail;
    if c.Arrow? {
      var l, r := Show(c.left), Show(c.right);
      var s := l + "->" + r;
      assert s[..|l|] == l && At(s, 0, l);
      SeekOver(s, 0, c.left);
      SplitsAt(s, l, r);
    } else {
      SeekOver(Show(c), 0, c);
      SplitsNowhere(Show(c));
    }
  }

  lemma SplitsNowhere(s: string)
    requires Seek(s, 0, 0, 0) == Seek(s, |s|, 0, 0)
    ensures Head(s) == s && Tail(s) == ""
  {
  }

  lemma SplitsAt(s: string, l: string, r: string)
    requires s == l + "->" + r && Seek(s, 0, 0, 0) == Seek(s, |l|, 0, 0)
    ensures Head(s) == l && Tail(s) == r
  {
    var n := |l|;
    assert s[n] == '-' && s[n + 1] == '>';
    assert Seek(s, n, 0, 0) == Seek(s, n + 1, 1, 0) == Some(n + 1);
    assert s[..n] == l && s[n + 2..] == r;
  }

  // --------------------------------------------------------- arity, bind and arg

  function Components(s: string): (n: nat)
    decreases |s|
  {
    var str := Simplify(s);
    if Tail(str) != "" then 1 + Components(Tail(str))
    else if Head(str) == "" then 0 else 1
  }

  function Arity(s: string): int
  {
    Components(s) - 1
  }

  function BindFrom(s: string, stop: int, n: int): string
    decreases |s|
  {
    var str := Simplify(s);
    if stop == n then str
    else if Tail(str) != "" then BindFrom(Tail(str), stop + 1, n)
    else ""
  }

  function Bind(s: string, n: int): string
  {
    Simplify(BindFrom(s, 0, n))
  }

  function ArgFrom(s: string, stop: int, index: int): string
    decreases |s|
  {
    var str := Simplify(s);
    if stop == index then Head(str)
    else if Tail(str) != "" then ArgFrom(Tail(str), stop + 1, index)
    else ""
  }

  function Arg(s: string, index: int): string
  {
    Simplify(ArgFrom(s, 0, index))
  }

  /** Arrows along the right spine of a type. */
  function Spine(t: Type): nat
  {
    if t.Fun? then 1 + Spine(t.cod) else 0
  }

  /** The type left after `n` arguments. */
  function After(t: Type, n: nat): Type
    requires n <= Spine(t)
  {
    if n == 0 then t else After(t.cod, n - 1)
  }

  /** The i-th component: an argument, or the result when `i` is the arity. */
  function Component(t: Type, i: nat): Type
    requires i <= Spine(t)
  {
    var u := After(t, i);
    if u.Fun? then u.dom else u
  }

  // ------------------------------------------------------------------ comparing atoms

  function SkipSpace(s: string): (r: string)
    ensures |r| <= |s| && (r == "" || !IsSpace(r[0]))
    ensures s != "" && IsSpace(s[0]) ==> |r| < |s|
  {
    if s != "" && IsSpace(s[0]) then SkipSpace(s[1..]) else s
  }

  /** The text with every run of blanks reduced to its first. */
  function Squeeze(s: string): string
    decreases |s|
  {
    if s == "" then ""
    else if IsSpace(s[0]) then [s[0]] + Squeeze(SkipSpace(s))
    else [s[0]] + Squeeze(s[1..])
  }

  function SkipFrom(s: string, i: nat): (k: nat)
    requires i <= |s|
    ensures i <= k <= |s| && s[k..] == SkipSpace(s[i..])
    decreases |s| - i
  {
    if i < |s| && IsSpace(s[i]) then
      assert s[i..][0] == s[i] && s[i..][1..] == s[i + 1..];
      SkipFrom(s, i + 1)
    else
      assert i < |s| ==> s[i..][0] == s[i];
      i
  }

  method CompareArgument(a: string, b: string) returns (same: bool)
    ensures same == (Squeeze(Simplify(a)) == Squeeze(Simplify(b)))
  {
    var s, t := Simplify(a), Simplify(b);
    var p, q := 0, 0;
    while p != |s| && q != |t|
      invariant 0 <= p <= |s| && 0 <= q <= |t|
      invariant Squeeze(s) == Squeeze(t) <==> Squeeze(s[p..]) == Squeeze(t[q..])
      decreases |s| - p
    {
      SqueezeCons(s[p..], t[q..]);
      if s[p] != t[q] {
        return false;
      }
      if IsSpace(s[p]) {
        p, q := SkipFrom(s, p), SkipFrom(t, q);
      } else {
        assert s[p..][1..] == s[p + 1..] && t[q..][1..] == t[q + 1..];
        p, q := p + 1, q + 1;
      }
    }
    same := p == |s| && q == |t|;
    assert s[|s|..] == "" && t[|t|..] == "";
  }

  lemma SqueezeCons(a: string, b: string)
    requires a != "" && b != ""
    ensures a[0] != b[0] ==> Squeeze(a) != Squeeze(b)
    ensures a[0] == b[0] && IsSpace(a[0]) ==> (Squeeze(a) == Squeeze(b) <==> Squeeze(SkipSpace(a)) == Squeeze(SkipSpace(b)))
    ensures a[0] == b[0] && !IsSpace(a[0]) ==> (Squeeze(a) == Squeeze(b) <==> Squeeze(a[1..]) == Squeeze(b[1..]))
  {
    assert Squeeze(a)[0] == a[0] && Squeeze(b)[0] == b[0];
    assert Squeeze(a)[1..] == if IsSpace(a[0]) then Squeeze(SkipSpace(a)) else Squeeze(a[1..]);
    assert Squeeze(b)[1..] == if IsSpace(b[0]) then Squeeze(SkipSpace(b)) else Squeeze(b[1..]);
  }

  /** Words separated by single blanks. */
  function JoinWords(ws: seq<string>): string
  {
    if ws == [] then "" else if |ws| == 1 then ws[0] else ws[0] + [' '] + JoinWords(ws[1..])
  }

  predicate Unbroken(w: string)
  {
    w != "" && forall i :: 0 <= i < |w| ==> Letter(w[i])
  }

  predicate GoodWords(ws: seq<string>)
  {
    |ws| > 0 && forall i :: 0 <= i < |ws| ==> Unbroken(ws[i])
  }

  /** Length of the leading word. */
  function Run(s: string): nat
  {
    if s != "" && Letter(s[0]) then 1 + Run(s[1..]) else 0
  }

  lemma {:induction false} RunWord(w: string, x: string)
    requires (forall i :: 0 <= i < |w| ==> Letter(w[i])) && (x == "" || x[0] == ' ')
    ensures Run(w + x) == |w|
    decreases |w|
  {
    if w != "" {
      assert (w + x)[1..] == w[1..] + x;
      RunWord(w[1..], x);
    } else {
      assert w + x == x;
    }
  }

  /** Two words followed by nothing or by a blank: where the text agrees, the words do. */
  lemma WordsAgree(a: string, x: string, b: string, y: string)
    requires Unbroken(a) && Unbroken(b) && a + x == b + y
    requires (x == "" || x[0] == ' ') && (y == "" || y[0] == ' ')
    ensures a == b && x == y
  {
    RunWord(a, x);
    RunWord(b, y);
    assert a == (a + x)[..|a|] == (b + y)[..|b|] == b;
    assert x == (a + x)[|a|..] == (b + y)[|b|..] == y;
  }

  function Rest(ws: seq<string>): string
    requires ws != []
  {
    if |ws| == 1 then "" else [' '] + JoinWords(ws[1..])
  }

  /** The joined text determines the words. */
  lemma {:induction false} JoinInjective(a: seq<string>, b: seq<string>)
    requires GoodWords(a) && GoodWords(b) && JoinWords(a) == JoinWords(b)
    ensures a == b
    decreases |a|
  {
    FirstWord(a);
    FirstWord(b);
    WordsAgree(a[0], Rest(a), b[0], Rest(b));
    if |a| > 1 {
      JoinInjective(a[1..], b[1..]);
      assert a == [a[0]] + a[1..] && b == [b[0]] + b[1..];
    } else {
      assert a == [a[0]] && b == [b[0]];
    }
  }

  lemma FirstWord(ws: seq<string>)
    requires GoodWords(ws)
    ensures JoinWords(ws) == ws[0] + Rest(ws) && Unbroken(ws[0])
    ensures |ws| > 1 ==> GoodWords(ws[1..]) && Rest(ws) != "" && Rest(ws)[1..] == JoinWords(ws[1..])
  {
    assert |ws| == 1 ==> ws[0] + "" == ws[0];
    assert |ws| > 1 ==> ws[0] + [' '] + JoinWords(ws[1..]) == ws[0] + ([' '] + JoinWords(ws[1..]));
  }

  lemma {:induction false} SqueezeWord(w: string, s: string)
    requires forall i :: 0 <= i < |w| ==> !IsSpace(w[i])
    ensures Squeeze(w + s) == w + Squeeze(s)
    decreases |w|
  {
    if w != "" {
      assert (w + s)[1..] == w[1..] + s;
      SqueezeWord(w[1..], s);
      assert w == [w[0]] + w[1..];
    } else {
      assert w + s == s;
    }
  }

  lemma {:induction false} SkipBlanks(n: nat, s: string)
    requires s == "" || !IsSpace(s[0])
    ensures SkipSpace(Blanks(n) + s) == s
  {
    var t := Blanks(n) + s;
    if n > 0 {
      assert t[1..] == Blanks(n - 1) + s;
      SkipBlanks(n - 1, s);
    } else {
      assert t == s;
    }
  }

  /** A flush atom squeezes to its words. */
  lemma {:induction false} SqueezeWords(ws: seq<Word>)
    requires WordsOk(ws) && ws[|ws| - 1].gap == 0
    ensures Squeeze(ShowWords(ws)) == JoinWords(Letters(ws)) && GoodWords(Letters(ws))
  {
    var w, rest := ws[0], ws[1..];
    if rest == [] {
      assert ws == [w] && Letters(ws) == [w.letters];
      ShowOne(w);
      SqueezeWord(w.letters, "");
      assert w.letters + "" == w.letters;
    } else {
      WordsTail(ws);
      SqueezeWords(rest);
      assert Letters(ws) == [w.letters] + Letters(rest);
      var t := Blanks(w.gap) + ShowWords(rest);
      assert ShowWords(ws) == w.letters + t;
      SqueezeWord(w.letters, t);
      assert ShowWords(rest)[0] == rest[0].letters[0];
      SkipBlanks(w.gap, ShowWords(rest));
      assert Squeeze(t) == [' '] + Squeeze(ShowWords(rest));
      assert Letters(ws)[1..] == Letters(rest);
    }
  }

  /** Squeezing loses no visible character. */
  lemma {:induction false} SqueezeKeeps(s: string, i: nat)
    requires i < |s| && !IsSpace(s[i])
    ensures s[i] in Squeeze(s)
    decreases |s|
  {
    if IsSpace(s[0]) {
      SkipKeeps(s, i);
      var r := SkipSpace(s);
      SqueezeKeeps(r, i - (|s| - |r|));
    } else if i > 0 {
      SqueezeKeeps(s[1..], i - 1);
    }
  }

  lemma {:induction false} SkipKeeps(s: string, i: nat)
    requires i < |s| && !IsSpace(s[i])
    ensures var r := SkipSpace(s); |s| - |r| <= i && r[i - (|s| - |r|)] == s[i]
    decreases |s|
  {
    if IsSpace(s[0]) {
      SkipKeeps(s[1..], i - 1);
    }
  }

  lemma {:induction false} JoinNoArrow(ws: seq<string>)
    requires GoodWords(ws)
    ensures '>' !in JoinWords(ws)
  {
    assert Unbroken(ws[0]);
    if |ws| > 1 {
      JoinNoArrow(ws[1..]);
    }
  }

  // ---------------------------------------------------- what one round of scanning sees

  /** One round on the text `s` of the type `t`, relative to a set of texts with their types: the
      simplified text is flush and is split into texts of the two sides of `t`. */
  ghost predicate Round(p: iset<(string, Type)>, s: string, t: Type)
  {
    var r := Simplify(s);
    && r != "" && (r, t) in p && Simplify(r) == r
    && (if t.Fun? then
          && Head(r) != "" && |Head(r)| < |r| && (Head(r), t.dom) in p
          && Tail(r) != "" && (Tail(r), t.cod) in p && '>' in Squeeze(r)
        else
          Head(r) == r && Tail(r) == "" && GoodWords(t.words) && Squeeze(r) == JoinWords(t.words))
  }

  ghost predicate Sound(p: iset<(string, Type)>)
  {
    forall s, t :: (s, t) in p ==> Round(p, s, t)
  }

  /** The well written signatures with the types they denote. */
  ghost function Texts(): iset<(string, Type)>
  {
    iset c: Syntax | Wf(c) :: (Show(c), Denote(c))
  }

  predicate Listed(p: iset<(string, Type)>, c: Syntax)
  {
    (Show(c), Denote(c)) in p
  }

  ghost predicate Complete(p: iset<(string, Type)>)
  {
    forall c :: Wf(c) ==> Listed(p, c)
  }

  lemma RoundShow(p: iset<(string, Type)>, c: Syntax)
    requires Wf(c) && Complete(p)
    ensures Round(p, Show(c), Denote(c))
  {
    var d := Simple(c);
    SimplifyShow(c);
    SimplifyIdempotent(c);
    HeadTailShow(d);
    assert Listed(p, d);
    if d.Arrow? {
      RoundArrow(d);
      assert Listed(p, d.left) && Listed(p, d.right);
      RoundFun(p, Show(c), Denote(c), Show(d));
    } else {
      CoreSame(c);
      RoundAtom(d, LeftFlush(Core(c)));
    }
  }

  lemma RoundFun(p: iset<(string, Type)>, s: string, t: Type, r: string)
    requires r == Simplify(s) == Simplify(r) && r != "" && (r, t) in p && t.Fun?
    requires Head(r) != "" && |Head(r)| < |r| && (Head(r), t.dom) in p
    requires Tail(r) != "" && (Tail(r), t.cod) in p && '>' in Squeeze(r)
    ensures Round(p, s, t)
  {
  }

  lemma RoundArrow(d: Syntax)
    requires Wf(d) && d.Arrow?
    ensures Show(d.left) != "" && |Show(d.left)| < |Show(d)| && Show(d.right) != "" && '>' in Squeeze(Show(d))
  {
    ShowRightFlush(d.left);
    ShowRightFlush(d.right);
    var n := |Show(d.left)| + 1;
    assert Show(d)[n] == '>';
    SqueezeKeeps(Show(d), n);
  }

  lemma RoundAtom(d: Syntax, c: Syntax)
    requires Wf(c) && c.Atom? && c.lead == 0 && d == RightFlush(c)
    ensures GoodWords(Denote(d).words) && Squeeze(Show(d)) == JoinWords(Denote(d).words)
  {
    LastFlushOk(c.words);
    SqueezeWords(d.words);
    assert Show(d) == ShowWords(d.words);
  }

  lemma TextsSound()
    ensures Sound(Texts())
  {
    var p := Texts();
    assert Complete(p);
    forall s, t | (s, t) in p
      ensures Round(p, s, t)
    {
      var c :| Wf(c) && (s, t) == (Show(c), Denote(c));
      RoundShow(p, c);
    }
  }

  // --------------------------------------------------------- arity, bind and arg on texts

  lemma {:induction false} ComponentsText(p: iset<(string, Type)>, s: string, t: Type)
    requires Sound(p) && (s, t) in p
    ensures Components(s) == 1 + Spine(t)
    decreases t
  {
    hide Simplify;
    assert Round(p, s, t);
    if t.Fun? {
      ComponentsText(p, Tail(Simplify(s)), t.cod);
    }
  }

  /** The simplified texts met along the spine. */
  function Views(s: string): (v: seq<string>)
    decreases |s|
  {
    var str := Simplify(s);
    if Tail(str) != "" then [str] + Views(Tail(str)) else [str]
  }

  /** `v` shows, one after the other, what is left of `t` after 0, 1, ... arguments. */
  ghost predicate Shows(p: iset<(string, Type)>, v: seq<string>, t: Type)
  {
    && |v| == 1 + Spine(t)
    && forall k :: 0 <= k < |v| ==> (v[k], After(t, k)) in p && Simplify(v[k]) == v[k]
  }

  lemma {:induction false} ViewsText(p: iset<(string, Type)>, s: string, t: Type)
    requires Sound(p) && (s, t) in p
    ensures Shows(p, Views(s), t)
    decreases t
  {
    hide Simplify;
    assert Round(p, s, t);
    if t.Fun? {
      ViewsText(p, Tail(Simplify(s)), t.cod);
      ShowsMore(p, Simplify(s), Views(Tail(Simplify(s))), t);
    }
  }

  lemma ShowsMore(p: iset<(string, Type)>, r: string, v: seq<string>, t: Type)
    requires t.Fun? && Shows(p, v, t.cod) && (r, t) in p && Simplify(r) == r
    ensures Shows(p, [r] + v, t)
  {
    hide Simplify;
    var w := [r] + v;
    forall k | 0 <= k < |w|
      ensures (w[k], After(t, k)) in p && Simplify(w[k]) == w[k]
    {
      if k > 0 {
        assert w[k] == v[k - 1];
      }
    }
  }

  lemma {:induction false} BindViews(s: string, stop: int, n: nat)
    ensures BindFrom(s, stop, stop + n) == if n < |Views(s)| then Views(s)[n] else ""
    decreases n
  {
    hide Simplify;
    var str := Simplify(s);
    if n > 0 && Tail(str) != "" {
      BindViews(Tail(str), stop + 1, n - 1);
    }
  }

  lemma {:induction false} ArgViews(s: string, stop: int, i: nat)
    ensures ArgFrom(s, stop, stop + i) == if i < |Views(s)| then Head(Views(s)[i]) else ""
    decreases i
  {
    hide Simplify;
    var str := Simplify(s);
    if i > 0 && Tail(str) != "" {
      ArgViews(Tail(str), stop + 1, i - 1);
    }
  }

  /** The views from any view on are the later views. */
  lemma {:induction false} ViewsLater(s: string, n: nat)
    requires n < |Views(s)| && Simplify(Views(s)[n]) == Views(s)[n]
    ensures Views(Views(s)[n]) == Views(s)[n..]
    decreases n
  {
    hide Simplify;
    var str := Simplify(s);
    if n > 0 {
      ViewsLater(Tail(str), n - 1);
    }
  }

  /** Views of nothing. */
  lemma NoView()
    ensures Simplify("") == "" && Views("") == [""] && Head("") == ""
  {
  }

  // ------------------------------------------------------------------- the main results

  lemma InTexts(c: Syntax)
    requires Wf(c)
    ensures (Show(c), Denote(c)) in Texts()
  {
  }

  /** Arity is the number of spine arrows. */
  lemma ArityShow(c: Syntax)
    requires Wf(c)
    ensures Arity(Show(c)) == Spine(Denote(c))
  {
    hide Simplify, Show, Denote, Texts;
    InTexts(c);
    TextsSound();
    ComponentsText(Texts(), Show(c), Denote(c));
  }

  /** `s` is a well written signature of the type `t`. */
  ghost predicate IsText(s: string, t: Type)
  {
    exists d :: Wf(d) && s == Show(d) && Denote(d) == t
  }

  /** What is left after `k` arguments; nothing past the end. */
  function ViewAt(s: string, k: nat): string
  {
    if k < |Views(s)| then Views(s)[k] else ""
  }

  lemma BindIs(s: string, n: nat)
    ensures Bind(s, n) == Simplify(ViewAt(s, n))
  {
    hide Simplify;
    BindViews(s, 0, n);
  }

  lemma ArgIs(s: string, i: nat)
    ensures Arg(s, i) == Simplify(Head(ViewAt(s, i)))
  {
    hide Simplify;
    ArgViews(s, 0, i);
  }

  lemma ViewShift(s: string, n: nat, i: nat)
    requires Simplify(ViewAt(s, n)) == ViewAt(s, n)
    ensures ViewAt(ViewAt(s, n), i) == ViewAt(s, n + i)
  {
    hide Simplify;
    if n < |Views(s)| {
      ViewsLater(s, n);
    } else {
      NoView();
    }
  }

  lemma ArgBindViews(s: string, b: string, n: nat, i: nat)
    requires b == ViewAt(s, n) == Simplify(b)
    ensures Arg(b, i) == Arg(s, n + i)
  {
    hide Simplify;
    ArgIs(s, n + i);
    ArgIs(b, i);
    ViewShift(s, n, i);
  }

  /** Binding `n` arguments leaves a signature of the type behind the first `n` arrows, or nothing. */
  lemma BindShow(c: Syntax, n: nat)
    requires Wf(c)
    ensures n <= Spine(Denote(c)) ==> IsText(Bind(Show(c), n), After(Denote(c), n))
    ensures n > Spine(Denote(c)) ==> Bind(Show(c), n) == ""
  {
    hide Simplify, Show, Denote, Texts;
    InTexts(c);
    var s, t := Show(c), Denote(c);
    TextsSound();
    ViewsText(Texts(), s, t);
    BindIs(s, n);
    if n <= Spine(t) {
      Simplified(Views(s)[n], After(t, n));
    } else {
      NoView();
    }
  }

  lemma Simplified(s: string, t: Type)
    requires (s, t) in Texts()
    ensures IsText(Simplify(s), t)
  {
    var c :| Wf(c) && (s, t) == (Show(c), Denote(c));
    SimplifyShow(c);
  }

  /** `arg` is a signature of the i-th component, or nothing past the result. */
  lemma ArgShow(c: Syntax, i: nat)
    requires Wf(c)
    ensures i <= Spine(Denote(c)) ==> IsText(Arg(Show(c), i), Component(Denote(c), i))
    ensures i > Spine(Denote(c)) ==> Arg(Show(c), i) == ""
  {
    hide Simplify, Show, Denote, Texts;
    InTexts(c);
    var s, t := Show(c), Denote(c);
    TextsSound();
    ViewsText(Texts(), s, t);
    ArgIs(s, i);
    if i <= Spine(t) {
      assert Round(Texts(), Views(s)[i], After(t, i));
      Simplified(Head(Views(s)[i]), Component(t, i));
    } else {
      NoView();
    }
  }

  /** `arg(bind(s, n), i)` and `arg(s, n + i)` are the same text, also past the end. */
  lemma ArgBind(c: Syntax, n: nat, i: nat)
    requires Wf(c)
    ensures Arg(Bind(Show(c), n), i) == Arg(Show(c), n + i)
  {
    hide Simplify, Show, Denote, Texts;
    InTexts(c);
    var s, t := Show(c), Denote(c);
    TextsSound();
    ViewsText(Texts(), s, t);
    BindIs(s, n);
    NoView();
    ArgBindViews(s, ViewAt(s, n), n, i);
  }

  // --------------------------------------------------------------------- equality

  /** Equality of two signatures.  None: a call that does not shorten its first operand. */
  function Equal(a: string, b: string): Option<bool>
    decreases |a|
  {
    var sa, sb := Simplify(a), Simplify(b);
    var ha, ta, hb, tb := Head(sa), Tail(sa), Head(sb), Tail(sb);
    if (ta == "") != (tb == "") then Some(false)
    else
      var heads :=
        if Arity(ha) == 0 then Some(Squeeze(Simplify(ha)) == Squeeze(Simplify(hb)))
        else if |ha| < |a| then Equal(ha, hb)
        else None;
      if heads != Some(true) then heads
      else if ta == "" && tb == "" then Some(true)
      else Equal(ta, tb)
  }

  lemma {:induction false} EqualText(p: iset<(string, Type)>, a: string, t: Type, b: string, u: Type)
    requires Sound(p) && (a, t) in p && (b, u) in p
    ensures Equal(a, b) == Some(t == u)
    decreases t
  {
    hide Simplify;
    assert Round(p, a, t) && Round(p, b, u);
    var sa, sb := Simplify(a), Simplify(b);
    if t.Fun? && u.Fun? {
      ComponentsText(p, Head(sa), t.dom);
      if t.dom.Fun? {
        EqualText(p, Head(sa), t.dom, Head(sb), u.dom);
      } else {
        AtomsEqual(p, Head(sa), t.dom, Head(sb), u.dom);
      }
      EqualText(p, Tail(sa), t.cod, Tail(sb), u.cod);
    } else if t.Base? && u.Base? {
      ComponentsText(p, Head(sa), t);
      AtomsEqual(p, Head(sa), t, Head(sb), u);
    }
  }

  /** Comparing with an atom is exact, whatever the other side. */
  lemma AtomsEqual(p: iset<(string, Type)>, a: string, t: Type, b: string, u: Type)
    requires Sound(p) && (a, t) in p && (b, u) in p && t.Base?
    ensures Squeeze(Simplify(a)) == Squeeze(Simplify(b)) <==> t == u
  {
    hide Simplify;
    assert Round(p, a, t) && Round(p, b, u);
    if u.Fun? {
      JoinNoArrow(t.words);
    } else if JoinWords(t.words) == JoinWords(u.words) {
      JoinInjective(t.words, u.words);
    }
  }

  /** Equality decides type equality on every pair of well written signatures. */
  lemma EqualShow(c: Syntax, d: Syntax)
    requires Wf(c) && Wf(d)
    ensures Equal(Show(c), Show(d)) == Some(Denote(c) == Denote(d))
  {
    hide Simplify, Show, Denote, Texts;
    InTexts(c);
    InTexts(d);
    TextsSound();
    EqualText(Texts(), Show(c), Denote(c), Show(d), Denote(d));
  }

  /** Hence it is an equivalence relation. */
  lemma EqualEquivalence(c: Syntax, d: Syntax, e: Syntax)
    requires Wf(c) && Wf(d) && Wf(e)
    ensures Equal(Show(c), Show(c)) == Some(true)
    ensures Equal(Show(c), Show(d)) == Equal(Show(d), Show(c))
    ensures Equal(Show(c), Show(d)) == Some(true) == Equal(Show(d), Show(e)) ==> Equal(Show(c), Show(e)) == Some(true)
  {
    hide Equal, Show, Denote;
    EqualShow(c, c);
    EqualShow(c, d);
    EqualShow(d, c);
    EqualShow(d, e);
    EqualShow(c, e);
  }

  // ------------------------------------------------------- where equality does not end

  lemma {:induction false} StripsSame(s: string, n: nat)
    requires |Strips(s, n)| == |s|
    ensures Strips(s, n) == s
  {
    if n > 0 && s != "" {
      StripShorter(s);
    }
  }

  lemma StripShorter(s: string)
    requires s != ""
    ensures |BeforeClose(AfterOpen(s))| < |s|
  {
    assert |AfterOpen(s)| < |s|;
  }

  lemma {:induction false} TrimSame(s: string)
    requires |Trim(s)| == |s|
    ensures Trim(s) == s
  {
    assert |TrimLeft(s)| == |s|;
    assert TrimLeft(s) == s;
  }

  /** Simplification that shortens nothing changes nothing. */
  lemma SimplifySame(s: string)
    requires |Simplify(s)| == |s|
    ensures Simplify(s) == s
  {
    var n := Max(0, Outmost(s));
    TrimSame(Strips(s, n));
    StripsSame(s, n);
  }

  /** Comparing the text meets an empty component. */
  predicate Blank(a: string)
    decreases |a|
  {
    a == "" ||
    var sa := Simplify(a);
    || (Arity(Head(sa)) != 0 && |Head(sa)| < |a| && Blank(Head(sa)))
    || (Tail(sa) != "" && Blank(Tail(sa)))
  }

  /** Only the empty text makes no progress. */
  lemma Progress(a: string)
    requires a != "" && Arity(Head(Simplify(a))) != 0
    ensures |Head(Simplify(a))| < |a|
  {
    hide Outmost;
    var sa := Simplify(a);
    if Seek(sa, 0, 0, 0).None? && |sa| == |a| {
      SimplifySame(a);
    }
  }

  /** A call that does not end has met an empty component of its first operand. */
  lemma {:induction false} StallsBlank(a: string, b: string)
    ensures Equal(a, b) == None ==> Blank(a)
    decreases |a|
  {
    hide Simplify, Arity, Squeeze;
    if a != "" {
      var sa, sb := Simplify(a), Simplify(b);
      if Arity(Head(sa)) != 0 {
        Progress(a);
        StallsBlank(Head(sa), Head(sb));
      }
      if Tail(sa) != "" {
        StallsBlank(Tail(sa), Tail(sb));
      }
    }
  }

  /** Exactly so when a text is compared with itself, for every text: equality is reflexive on those
      without empty components and does not end on the others. */
  lemma {:induction false} EqualSelfIff(a: string)
    ensures Equal(a, a) == if Blank(a) then None else Some(true)
    decreases |a|
  {
    hide Simplify, Arity, Squeeze;
    if a == "" {
      EmptyRepeats();
    } else {
      var sa := Simplify(a);
      if Arity(Head(sa)) != 0 {
        Progress(a);
        EqualSelfIff(Head(sa));
      }
      if Tail(sa) != "" {
        EqualSelfIff(Tail(sa));
      }
    }
  }

  /** The simplest case: on empty texts the call repeats itself. */
  lemma EmptyRepeats()
    ensures Head(Simplify("")) == "" && Arity("") != 0 && Equal("", "") == None
  {
    assert Simplify("") == "";
  }

  /** No well written signature has an empty component. */
  lemma WellWrittenNotBlank(c: Syntax)
    requires Wf(c)
    ensures !Blank(Show(c))
  {
    hide Equal, Show, Denote, Blank;
    EqualShow(c, c);
    EqualSelfIff(Show(c));
  }
}
