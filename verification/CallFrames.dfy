/** Calls and returns of the QuakeC interpreter: a callee's locals live in the globals,
    so each call saves those it steps on, and the return puts them back. */
module CallFrames {
  import opened Options

  const MAX_STACK_DEPTH := 32
  const LOCALSTACK_SIZE := 2048
  const OFS_PARM0 := 4

  /** dfunction_t */
  datatype Function = Function(firstStatement: int, parmStart: nat, locals: nat, parmSize: seq<nat>)

  /** A saved frame of pr_stack. */
  datatype Frame = Frame(s: int, f: Option<Function>)

  /** pr_globals, pr_stack up to pr_depth, localstack up to localstack_used, pr_xfunction and pr_xstatement. */
  datatype Machine = Machine(
    globals: seq<int>, frames: seq<Frame>, locals: seq<int>, xfunction: Option<Function>, xstatement: int)

  /** A function of a program with n globals: its locals and the parameters it takes are among them. */
  predicate ProperFunction(f: Function, n: nat) {
    f.parmStart + f.locals <= n && |f.parmSize| <= 8 && OFS_PARM0 + 24 <= n &&
    (forall i | 0 <= i < |f.parmSize| :: f.parmSize[i] <= 3) &&
    f.parmStart + ParmInts(f, |f.parmSize|) <= n
  }

  /** The ints the first k parameters take. */
  function ParmInts(f: Function, k: nat): nat
    requires k <= |f.parmSize|
  {
    if k == 0 then 0 else ParmInts(f, k - 1) + f.parmSize[k - 1]
  }

  /** The parameters fit within the locals. */
  predicate ParmsFit(f: Function) {
    ParmInts(f, |f.parmSize|) <= f.locals
  }

  // ---------- PR_EnterFunction and PR_LeaveFunction as functions ----------

  /** The first j ints of parameter i copied, one after another. */
  function CopyParm(g: seq<int>, o: nat, i: nat, j: nat): (r: seq<int>)
    requires i < 8 && j <= 3 && OFS_PARM0 + 24 <= |g| && o + j <= |g|
    ensures |r| == |g| && forall x | 0 <= x < |g| && !(o <= x < o + j) :: r[x] == g[x]
  {
    if j == 0 then g
    else
      var h := CopyParm(g, o, i, j - 1);
      h[o + j - 1 := h[OFS_PARM0 + 3 * i + j - 1]]
  }

  /** The first k parameters copied into the locals. */
  function CopyParms(g: seq<int>, f: Function, k: nat): (r: seq<int>)
    requires ProperFunction(f, |g|) && k <= |f.parmSize|
    ensures |r| == |g|
    ensures forall x | 0 <= x < |g| && !(f.parmStart <= x < f.parmStart + ParmInts(f, k)) :: r[x] == g[x]
  {
    if k == 0 then g
    else
      ParmIntsGrow(f, k, |f.parmSize|);
      CopyParm(CopyParms(g, f, k - 1), f.parmStart + ParmInts(f, k - 1), k - 1, f.parmSize[k - 1])
  }

  lemma {:induction false} ParmIntsGrow(f: Function, j: nat, k: nat)
    requires j <= k <= |f.parmSize|
    ensures ParmInts(f, j) <= ParmInts(f, k)
    decreases k
  {
    if j < k {
      ParmIntsGrow(f, j, k - 1);
    }
  }

  /** The globals in which the ints of parameter i are given. */
  function ParmOffset(i: nat, j: nat): nat {
    OFS_PARM0 + 3 * i + j
  }

  /** The copying reaches this int of a parameter before it writes to where it is given. */
  predicate StillGiven(f: Function, i: nat, j: nat)
    requires i < |f.parmSize|
  {
    !(f.parmStart <= ParmOffset(i, j) < f.parmStart + ParmInts(f, i) + j)
  }

  /** The callee's locals begin with the arguments, each in as many ints as it takes. */
  predicate HasArguments(f: Function, before: seq<int>, after: seq<int>)
    requires ProperFunction(f, |before|) && |after| == |before|
  {
    forall i, j | 0 <= i < |f.parmSize| && 0 <= j < f.parmSize[i] && StillGiven(f, i, j) ::
      PlaceOf(f, i, j) < |after| && after[PlaceOf(f, i, j)] == before[ParmOffset(i, j)]
  }

  function PlaceOf(f: Function, i: nat, j: nat): nat
    requires i < |f.parmSize|
  {
    f.parmStart + ParmInts(f, i) + j
  }

  lemma {:induction false} CopiedInt(g: seq<int>, o: nat, i: nat, j: nat, x: nat)
    requires i < 8 && x < j <= 3 && OFS_PARM0 + 24 <= |g| && o + j <= |g|
    requires !(o <= ParmOffset(i, x) < o + x)
    ensures CopyParm(g, o, i, j)[o + x] == g[ParmOffset(i, x)]
    decreases j
  {
    if x < j - 1 {
      CopiedInt(g, o, i, j - 1, x);
    }
  }

  lemma {:induction false} CopiedArgument(g: seq<int>, f: Function, k: nat, i: nat, j: nat)
    requires ProperFunction(f, |g|) && i < k <= |f.parmSize| && j < f.parmSize[i] && StillGiven(f, i, j)
    ensures PlaceOf(f, i, j) < |g| && CopyParms(g, f, k)[PlaceOf(f, i, j)] == g[ParmOffset(i, j)]
    decreases k
  {
    hide CopyParm;
    var h, o, size := CopyParms(g, f, k - 1), f.parmStart + ParmInts(f, k - 1), f.parmSize[k - 1];
    ParmIntsGrow(f, k, |f.parmSize|);
    assert CopyParms(g, f, k) == CopyParm(h, o, k - 1, size);
    if i < k - 1 {
      CopiedArgument(g, f, k - 1, i, j);
      ParmIntsGrow(f, i + 1, k - 1);
    } else {
      CopiedInt(h, o, i, size, j);
    }
  }

  /** Every argument arrives whose source is not overwritten by an earlier one. */
  lemma ArgumentsArrive(g: seq<int>, f: Function)
    requires ProperFunction(f, |g|)
    ensures HasArguments(f, g, CopyParms(g, f, |f.parmSize|))
  {
    forall i, j | 0 <= i < |f.parmSize| && 0 <= j < f.parmSize[i] && StillGiven(f, i, j)
      ensures PlaceOf(f, i, j) < |g| && CopyParms(g, f, |f.parmSize|)[PlaceOf(f, i, j)] == g[ParmOffset(i, j)]
    {
      CopiedArgument(g, f, |f.parmSize|, i, j);
    }
  }

  /** A callee whose parameters are apart from the globals that arguments are given in gets all of them. */
  lemma ApartGetsAll(f: Function, n: nat, i: nat, j: nat)
    requires ProperFunction(f, n) && i < |f.parmSize| && j < f.parmSize[i]
    requires f.parmStart >= OFS_PARM0 + 24 || f.parmStart + ParmInts(f, |f.parmSize|) <= OFS_PARM0
    ensures StillGiven(f, i, j)
  {
    ParmIntsGrow(f, i + 1, |f.parmSize|);
  }

  /** PR_EnterFunction; None is PR_RunError. */
  function Entered(m: Machine, f: Function): Option<Machine>
    requires ProperFunction(f, |m.globals|)
  {
    if |m.frames| + 1 >= MAX_STACK_DEPTH || |m.locals| + f.locals > LOCALSTACK_SIZE then None
    else
      Some(Machine(CopyParms(m.globals, f, |f.parmSize|),
                   m.frames + [Frame(m.xstatement, m.xfunction)],
                   m.locals + m.globals[f.parmStart..f.parmStart + f.locals],
                   Some(f), m.xstatement))
  }

  /** The ints from at on replaced. */
  function Restored(g: seq<int>, at: nat, saved: seq<int>): (r: seq<int>)
    requires at + |saved| <= |g|
    ensures |r| == |g|
  {
    g[..at] + saved + g[at + |saved|..]
  }

  predicate ProperMachine(m: Machine) {
    m.xfunction.Some? ==> ProperFunction(m.xfunction.value, |m.globals|)
  }

  /** PR_LeaveFunction, and the interpreter going on from the statement it returns; None is an error. */
  function Left(m: Machine): Option<Machine>
    requires ProperMachine(m)
  {
    if m.frames == [] || m.xfunction.None? || |m.locals| < m.xfunction.value.locals then None
    else
      var f, used := m.xfunction.value, |m.locals| - m.xfunction.value.locals;
      var top := m.frames[|m.frames| - 1];
      Some(Machine(Restored(m.globals, f.parmStart, m.locals[used..]), m.frames[..|m.frames| - 1], m.locals[..used],
                   top.f, top.s))
  }

  // ---------- Runs ----------

  /** What the interpreter does, as far as calls and globals go. */
  datatype Event = Enter(f: Function) | Leave | Store(address: nat, value: int) | At(statement: int)

  predicate GoodEvent(e: Event, n: nat) {
    match e
    case Enter(f) => ProperFunction(f, n)
    case Store(address, _) => address < n
    case _ => true
  }

  function Next(m: Machine, e: Event): Option<Machine>
    requires ProperMachine(m) && GoodEvent(e, |m.globals|)
  {
    match e
    case Enter(f) => Entered(m, f)
    case Leave => Left(m)
    case Store(address, value) => Some(m.(globals := m.globals[address := value]))
    case At(statement) => Some(m.(xstatement := statement))
  }

  /** The run of the events ends, without an error, in t. */
  ghost predicate Runs(m: Machine, events: seq<Event>, t: Machine)
    decreases |events|
  {
    if events == [] then m == t
    else
      && ProperMachine(m) && GoodEvent(events[0], |m.globals|)
      && Next(m, events[0]).Some? && Runs(Next(m, events[0]).value, events[1..], t)
  }

  /** The depth that the events end at, from depth d; None if they return below the depth they started at. */
  function DepthAfter(events: seq<Event>, d: nat): Option<nat>
    decreases |events|
  {
    if events == [] then Some(d)
    else
      match events[0]
      case Enter(_) => DepthAfter(events[1..], d + 1)
      case Leave => if d == 0 then None else DepthAfter(events[1..], d - 1)
      case _ => DepthAfter(events[1..], d)
  }

  predicate Balanced(events: seq<Event>) {
    DepthAfter(events, 0) == Some(0)
  }

  // ---------- Returning restores ----------

  /** Everything about calls is as in k: the depth, the saved frames and locals, and the function. */
  predicate SameCalls(m: Machine, k: Machine) {
    m.frames == k.frames && m.locals == k.locals && m.xfunction == k.xfunction && |m.globals| == |k.globals|
  }

  /** d returns from m lead back to the calls of k. */
  ghost predicate Above(m: Machine, k: Machine, d: nat)
    decreases d
  {
    if d == 0 then SameCalls(m, k)
    else ProperMachine(m) && Left(m).Some? && Above(Left(m).value, k, d - 1)
  }

  lemma {:induction false} AboveIgnoresGlobals(m: Machine, n: Machine, k: Machine, d: nat)
    requires Above(m, k, d) && SameCalls(m, n) && ProperMachine(n)
    ensures Above(n, k, d)
    decreases d
  {
    if d > 0 {
      assert SameCalls(Left(m).value, Left(n).value);
      if d > 1 {
        assert ProperMachine(Left(m).value);
        AboveIgnoresGlobals(Left(m).value, Left(n).value, k, d - 1);
      }
    }
  }

  /** The next return undoes a call. */
  lemma LeaveAfterEnter(m: Machine, f: Function)
    requires ProperMachine(m) && ProperFunction(f, |m.globals|) && Entered(m, f).Some?
    ensures var e := Entered(m, f).value;
            ProperMachine(e) && Left(e).Some? && SameCalls(Left(e).value, m) && Left(e).value.xstatement == m.xstatement
  {
    hide CopyParms, ParmInts, Restored;
    var e := Entered(m, f).value;
    assert e.frames[..|m.frames|] == m.frames && e.locals[..|m.locals|] == m.locals;
  }

  lemma LocalsComeBack(m: Machine, f: Function)
    requires ProperMachine(m) && ProperFunction(f, |m.globals|) && Entered(m, f).Some?
    requires var e := Entered(m, f).value; ProperMachine(e) && Left(e).Some?
    ensures var g := Left(Entered(m, f).value).value.globals;
            && |g| == |m.globals|
            && (forall x | f.parmStart <= x < f.parmStart + f.locals :: g[x] == m.globals[x])
            && (ParmsFit(f) ==> g == m.globals)
  {
    hide ParmInts;
    var e := Entered(m, f).value;
    var saved := m.globals[f.parmStart..f.parmStart + f.locals];
    assert e.locals[|m.locals|..] == saved;
    var g := Left(e).value.globals;
    forall x | f.parmStart <= x < f.parmStart + f.locals ensures g[x] == m.globals[x] {
      assert g[x] == saved[x - f.parmStart];
    }
    if ParmsFit(f) {
      forall x | 0 <= x < |g| && !(f.parmStart <= x < f.parmStart + f.locals) ensures g[x] == m.globals[x] {
        assert g[x] == e.globals[x];
      }
    }
  }

  lemma {:induction false} EnterGoesAbove(m: Machine, k: Machine, d: nat, f: Function)
    requires ProperMachine(m) && ProperFunction(f, |m.globals|) && Entered(m, f).Some?
    requires Above(m, k, d)
    ensures Above(Entered(m, f).value, k, d + 1)
  {
    hide CopyParms, Restored;
    LeaveAfterEnter(m, f);
    if d > 0 {
      AboveIgnoresGlobals(m, Left(Entered(m, f).value).value, k, d);
    }
  }

  lemma {:induction false} RunStaysAbove(m: Machine, k: Machine, d: nat, events: seq<Event>, t: Machine)
    requires Above(m, k, d) && Runs(m, events, t) && DepthAfter(events, d).Some?
    ensures Above(t, k, DepthAfter(events, d).value)
    decreases |events|
  {
    hide CopyParms, Restored, Entered;
    if events != [] {
      var e, n := events[0], Next(m, events[0]).value;
      match e
      case Enter(f) =>
        EnterGoesAbove(m, k, d, f);
        RunStaysAbove(n, k, d + 1, events[1..], t);
      case Leave =>
        RunStaysAbove(n, k, d - 1, events[1..], t);
      case _ =>
        AboveIgnoresGlobals(m, n, k, d);
        RunStaysAbove(n, k, d, events[1..], t);
    }
  }

  /** A call and its matching return, whatever the callee does in between, including calling itself:
      the depth, the saved frames and locals, the function and the statement are as before the call,
      and so is every global in the callee's local range. */
  lemma CallRestores(m: Machine, f: Function, body: seq<Event>, t: Machine)
    requires ProperMachine(m) && ProperFunction(f, |m.globals|) && Entered(m, f).Some?
    requires Balanced(body) && Runs(Entered(m, f).value, body, t)
    ensures ProperMachine(t) && Left(t).Some?
    ensures var r := Left(t).value;
            && r.frames == m.frames && r.locals == m.locals && r.xfunction == m.xfunction
            && r.xstatement == m.xstatement
            && |r.globals| == |m.globals|
            && r.globals[f.parmStart..f.parmStart + f.locals] == m.globals[f.parmStart..f.parmStart + f.locals]
  {
    var e := Entered(m, f).value;
    LeaveAfterEnter(m, f);
    LocalsComeBack(m, f);
    RunStaysAbove(e, e, 0, body, t);
    hide Entered, Runs;
    SameLocalsComeBack(e, t);
  }

  lemma SameLocalsComeBack(e: Machine, t: Machine)
    requires ProperMachine(e) && Left(e).Some? && SameCalls(t, e)
    ensures ProperMachine(t) && Left(t).Some?
    ensures var (l, r, f) := (Left(e).value, Left(t).value, e.xfunction.value);
            && SameCalls(l, r) && l.xstatement == r.xstatement
            && r.globals[f.parmStart..f.parmStart + f.locals] == l.globals[f.parmStart..f.parmStart + f.locals]
  {
  }

  // ---------- Calls are transparent ----------

  /** What the global at x will be when d calls have returned. */
  function ValueBelow(m: Machine, d: nat, x: nat): Option<int>
    requires ProperMachine(m) && x < |m.globals|
    decreases d
  {
    if d == 0 then Some(m.globals[x])
    else if Left(m).None? || !ProperMachine(Left(m).value) then None
    else ValueBelow(Left(m).value, d - 1, x)
  }

  lemma {:induction false} StoreElsewhere(m: Machine, d: nat, x: nat, address: nat, value: int)
    requires ProperMachine(m) && x < |m.globals| && address < |m.globals| && x != address
    ensures ValueBelow(m.(globals := m.globals[address := value]), d, x) == ValueBelow(m, d, x)
    decreases d
  {
    StoreCommutes(m, d, x, m.(globals := m.globals[address := value]));
  }

  lemma {:induction false} StoreCommutes(m: Machine, d: nat, x: nat, n: Machine)
    requires ProperMachine(m) && ProperMachine(n) && x < |m.globals| && SameCalls(m, n) && m.globals[x] == n.globals[x]
    ensures ValueBelow(n, d, x) == ValueBelow(m, d, x)
    decreases d
  {
    if d > 0 && Left(m).Some? && ProperMachine(Left(m).value) {
      StoreCommutes(Left(m).value, d - 1, x, Left(n).value);
    }
  }

  /** The function keeps the global at x among its locals, so a return from it puts the old value back. */
  predicate Keeps(f: Function, x: nat) {
    f.parmStart <= x < f.parmStart + f.locals
  }

  predicate SomeKeeps(open: seq<Function>, x: nat) {
    exists i :: 0 <= i < |open| && Keeps(open[i], x)
  }

  /** Within calls of the open functions, x is stored to only while one of them keeps it,
      and parameters fit within locals. */
  predicate Leaves(events: seq<Event>, open: seq<Function>, x: nat)
    decreases |events|
  {
    if events == [] then true
    else
      match events[0]
      case Enter(f) => ParmsFit(f) && Leaves(events[1..], open + [f], x)
      case Leave => open != [] && Leaves(events[1..], open[..|open| - 1], x)
      case Store(address, _) => (address == x ==> SomeKeeps(open, x)) && Leaves(events[1..], open, x)
      case At(_) => Leaves(events[1..], open, x)
  }

  /** The innermost calls are those of the open functions. */
  ghost predicate Within(m: Machine, open: seq<Function>)
    decreases |open|
  {
    open == [] ||
    (ProperMachine(m) && m.xfunction == Some(open[|open| - 1]) && Left(m).Some?
     && Within(Left(m).value, open[..|open| - 1]))
  }

  lemma {:induction false} WithinIgnoresGlobals(m: Machine, n: Machine, open: seq<Function>)
    requires Within(m, open) && SameCalls(m, n)
    ensures Within(n, open)
    decreases |open|
  {
    if open != [] {
      assert ProperMachine(n) && Left(n).Some?;
      assert SameCalls(Left(m).value, Left(n).value);
      WithinIgnoresGlobals(Left(m).value, Left(n).value, open[..|open| - 1]);
    }
  }

  lemma {:induction false} EnterGoesWithin(m: Machine, open: seq<Function>, f: Function)
    requires ProperMachine(m) && ProperFunction(f, |m.globals|) && Entered(m, f).Some? && Within(m, open)
    ensures Within(Entered(m, f).value, open + [f])
  {
    hide CopyParms, Restored;
    LeaveAfterEnter(m, f);
    assert (open + [f])[..|open|] == open;
    WithinIgnoresGlobals(m, Left(Entered(m, f).value).value, open);
  }

  /** While an open function keeps x, its value now does not matter for what it will be after the returns. */
  lemma {:induction false} KeptValueComesBack(m: Machine, n: Machine, open: seq<Function>, x: nat)
    requires ProperMachine(m) && ProperMachine(n) && x < |m.globals| && SameCalls(m, n)
    requires Within(m, open) && SomeKeeps(open, x)
    ensures ValueBelow(n, |open|, x) == ValueBelow(m, |open|, x)
    decreases |open|
  {
    var f, rest := open[|open| - 1], open[..|open| - 1];
    var l, r := Left(m).value, Left(n).value;
    if ProperMachine(l) {
      if Keeps(f, x) {
        KeptValueIsRestored(m, n, x);
        StoreCommutes(l, |rest|, x, r);
      } else {
        var i :| 0 <= i < |open| && Keeps(open[i], x);
        assert rest[i] == open[i];
        KeptValueComesBack(l, r, rest, x);
      }
    }
  }

  lemma KeptValueIsRestored(m: Machine, n: Machine, x: nat)
    requires ProperMachine(m) && ProperMachine(n) && SameCalls(m, n) && Left(m).Some? && Keeps(m.xfunction.value, x)
    ensures Left(n).Some? && x < |m.globals| && SameCalls(Left(m).value, Left(n).value)
    ensures Left(m).value.globals[x] == Left(n).value.globals[x]
  {
  }

  lemma EnterKeepsValueBelow(m: Machine, d: nat, f: Function, x: nat)
    requires ProperMachine(m) && x < |m.globals| && ProperFunction(f, |m.globals|) && ParmsFit(f)
    requires Entered(m, f).Some?
    ensures ProperMachine(Entered(m, f).value) && |Entered(m, f).value.globals| == |m.globals|
    ensures ValueBelow(Entered(m, f).value, d + 1, x) == ValueBelow(m, d, x)
  {
    LeaveAfterEnter(m, f);
    LocalsComeBack(m, f);
    hide Entered, Left, ParmInts;
    StoreCommutes(m, d, x, Left(Entered(m, f).value).value);
  }

  lemma {:induction false} RunKeepsValueBelow(m: Machine, open: seq<Function>, events: seq<Event>, t: Machine, x: nat)
    requires ProperMachine(m) && x < |m.globals| && Runs(m, events, t)
    requires Within(m, open) && Leaves(events, open, x) && DepthAfter(events, |open|).Some?
    requires ValueBelow(m, |open|, x).Some?
    ensures ProperMachine(t) && x < |t.globals|
    ensures ValueBelow(t, DepthAfter(events, |open|).value, x) == ValueBelow(m, |open|, x)
    decreases |events|
  {
    hide CopyParms, Restored, Entered, SomeKeeps;
    if events != [] {
      var e, n := events[0], Next(m, events[0]).value;
      match e
      case Enter(f) =>
        EnterKeepsValueBelow(m, |open|, f, x);
        EnterGoesWithin(m, open, f);
        RunKeepsValueBelow(n, open + [f], events[1..], t, x);
      case Leave =>
        RunKeepsValueBelow(n, open[..|open| - 1], events[1..], t, x);
      case Store(address, value) =>
        StoreKeepsValueBelow(m, open, address, value, x);
        RunKeepsValueBelow(n, open, events[1..], t, x);
      case At(_) =>
        StoreCommutes(m, |open|, x, n);
        WithinIgnoresGlobals(m, n, open);
        RunKeepsValueBelow(n, open, events[1..], t, x);
    }
  }

  lemma {:induction false} StoreKeepsValueBelow(m: Machine, open: seq<Function>, address: nat, value: int, x: nat)
    requires ProperMachine(m) && x < |m.globals| && address < |m.globals| && Within(m, open)
    requires address == x ==> SomeKeeps(open, x)
    ensures var n := m.(globals := m.globals[address := value]);
            Within(n, open) && ValueBelow(n, |open|, x) == ValueBelow(m, |open|, x)
  {
    hide SomeKeeps;
    var n := m.(globals := m.globals[address := value]);
    WithinIgnoresGlobals(m, n, open);
    if address == x {
      KeptValueComesBack(m, n, open, x);
    } else {
      StoreElsewhere(m, |open|, x, address, value);
    }
  }

  /** Over any balanced run, at any depth of recursion, a global keeps its value, although the calls use it for
      their locals and parameters, if it is stored to only within calls of functions that keep it. */
  lemma CallsAreTransparent(m: Machine, events: seq<Event>, t: Machine, x: nat)
    requires ProperMachine(m) && x < |m.globals| && Runs(m, events, t) && Balanced(events) && Leaves(events, [], x)
    ensures x < |t.globals| && t.globals[x] == m.globals[x]
    ensures SameCalls(t, m)
  {
    RunKeepsValueBelow(m, [], events, t, x);
    RunStaysAbove(m, m, 0, events, t);
  }

  // ---------- In place ----------

  lemma ParmIntsStart(f: Function)
    ensures ParmInts(f, 0) == 0
  {
  }

  lemma ParmIntsStep(f: Function, i: nat)
    requires i < |f.parmSize|
    ensures ParmInts(f, i + 1) == ParmInts(f, i) + f.parmSize[i]
  {
  }

  class Interpreter {
    const globals: array<int>
    const stack: array<Frame>
    var depth: nat
    const localstack: array<int>
    var localstackUsed: nat
    var xfunction: Option<Function>
    var xstatement: int

    ghost predicate Valid()
      reads this
    {
      stack.Length == MAX_STACK_DEPTH && localstack.Length == LOCALSTACK_SIZE && globals != localstack &&
      depth < MAX_STACK_DEPTH && localstackUsed <= LOCALSTACK_SIZE
    }

    ghost function Value(): Machine
      requires Valid()
      reads this, globals, stack, localstack
    {
      Machine(globals[..], stack[..depth], localstack[..localstackUsed], xfunction, xstatement)
    }

    constructor (globals: array<int>)
      ensures Valid() && fresh(stack) && fresh(localstack) && this.globals == globals
      ensures Value() == Machine(globals[..], [], [], None, 0)
    {
      this.globals := globals;
      stack := new Frame[MAX_STACK_DEPTH](_ => Frame(0, None));
      localstack := new int[LOCALSTACK_SIZE](_ => 0);
      depth, localstackUsed, xfunction, xstatement := 0, 0, None, 0;
    }

    /** The copying of one parameter by PR_EnterFunction. */
    method CopyParameter(at: nat, i: nat, size: nat)
      requires Valid() && i < 8 && size <= 3 && OFS_PARM0 + 24 <= globals.Length && at + size <= globals.Length
      modifies globals
      ensures globals[..] == CopyParm(old(globals[..]), at, i, size)
    {
      var o := at;
      for j := 0 to size
        invariant o == at + j
        invariant globals[..] == CopyParm(old(globals[..]), at, i, j)
      {
        globals[o] := globals[OFS_PARM0 + i * 3 + j];
        o := o + 1;
      }
    }

    /** The copying of the parameters. */
    method CopyParameters(f: Function)
      requires Valid() && ProperFunction(f, globals.Length)
      modifies globals
      ensures globals[..] == CopyParms(old(globals[..]), f, |f.parmSize|)
      ensures HasArguments(f, old(globals[..]), globals[..])
    {
      hide ParmInts, CopyParm, HasArguments;
      ArgumentsArrive(globals[..], f);
      var o := f.parmStart;
      ParmIntsStart(f);
      for i := 0 to |f.parmSize|
        invariant o == f.parmStart + ParmInts(f, i)
        invariant globals[..] == CopyParms(old(globals[..]), f, i)
      {
        ParmIntsStep(f, i);
        ParmIntsGrow(f, i + 1, |f.parmSize|);
        CopyParameter(o, i, f.parmSize[i]);
        o := o + f.parmSize[i];
      }
    }

    /** The saving of the locals. */
    method SaveLocals(at: nat, c: nat)
      requires Valid() && at + c <= globals.Length && localstackUsed + c <= LOCALSTACK_SIZE
      modifies localstack
      ensures localstack[..localstackUsed + c] == old(localstack[..localstackUsed]) + globals[at..at + c]
    {
      var used := localstackUsed;
      for i := 0 to c
        invariant localstack[..used] == old(localstack[..used])
        invariant localstack[used..used + i] == globals[at..at + i]
      {
        localstack[used + i] := globals[at + i];
      }
    }

    /** PR_EnterFunction: the statement to go on from, less one; ok is false for PR_RunError. */
    method EnterFunction(f: Function) returns (ok: bool, s: int)
      requires Valid() && ProperFunction(f, globals.Length)
      modifies this, globals, stack, localstack
      ensures ok == Entered(old(Value()), f).Some?
      ensures ok ==> Valid() && Value() == Entered(old(Value()), f).value && s == f.firstStatement - 1
      ensures ok ==> HasArguments(f, old(globals[..]), globals[..])
    {
      hide CopyParms, ParmInts, HasArguments;
      s := 0;
      ghost var frames := stack[..depth];
      stack[depth] := Frame(xstatement, xfunction);
      depth := depth + 1;
      assert stack[..depth] == frames + [Frame(xstatement, xfunction)];
      if depth >= MAX_STACK_DEPTH {
        return false, 0;
      }
      var c := f.locals;
      if localstackUsed + c > LOCALSTACK_SIZE {
        return false, 0;
      }
      SaveLocals(f.parmStart, c);
      localstackUsed := localstackUsed + c;
      CopyParameters(f);
      xfunction := Some(f);
      ok, s := true, f.firstStatement - 1;
    }

    /** The restoring of the locals by PR_LeaveFunction. */
    method RestoreLocals(at: nat, c: nat)
      requires Valid() && at + c <= globals.Length && localstackUsed + c <= LOCALSTACK_SIZE
      modifies globals
      ensures globals[..] == Restored(old(globals[..]), at, localstack[localstackUsed..localstackUsed + c])
    {
      var used := localstackUsed;
      for i := 0 to c
        invariant globals[..at] == old(globals[..at])
        invariant globals[at..at + i] == localstack[used..used + i]
        invariant globals[at + i..] == old(globals[at + i..])
      {
        globals[at + i] := localstack[used + i];
      }
    }

    /** PR_LeaveFunction: the statement saved by the matching call; ok is false for an error. */
    method LeaveFunction() returns (ok: bool, s: int)
      requires Valid() && ProperMachine(Value())
      modifies this, globals
      ensures ok == Left(old(Value())).Some?
      ensures ok ==> Valid() && s == Left(old(Value())).value.xstatement
      ensures ok ==> Value() == Left(old(Value())).value.(xstatement := old(xstatement))
    {
      hide Restored, ParmInts;
      s := 0;
      if depth <= 0 || xfunction.None? {
        return false, 0;
      }
      var f := xfunction.value;
      var c := f.locals;
      if localstackUsed < c {
        return false, 0;
      }
      ghost var locals, frames := localstack[..localstackUsed], stack[..depth];
      localstackUsed := localstackUsed - c;
      assert localstack[localstackUsed..localstackUsed + c] == locals[localstackUsed..];
      RestoreLocals(f.parmStart, c);
      depth := depth - 1;
      assert localstack[..localstackUsed] == locals[..localstackUsed] && stack[..depth] == frames[..depth];
      xfunction := stack[depth].f;
      ok, s := true, stack[depth].s;
    }
  }
}
