/**
 Whole runs: copy-on-write refines eager copying, and every count stays exact.
*/
module EagerRuns {
  import opened PageTables
  import opened CowPaging
  import opened ExecPages
  import opened EagerCopy
  import opened PageDemand
  import opened RequestDemand

  /** The pages the request needs are free. */
  ghost predicate Enough(s: Sys, op: Op)
    requires Shape(s.mem) && |s.task| == |s.exec| == NR_TASKS && Legal(s, op)
  {
    Need(s, op) <= |Free(s.mem)|
  }

  /** One request: it succeeds if and only if the pages it needs are free, and has its eager effect. */
  lemma StepInv(s: Sys, kernel: multiset<PageNo>, op: Op)
    requires SysInv(s, kernel)
    ensures var (s', ok) := Step(s, op);
            && SysInv(s', kernel)
            && (Legal(s, op) ==> (ok <==> Enough(s, op)) && Abs(s') == EagerStep(Abs(s), s.image, op, ok))
  {
    hide SysInv, SpaceOf, ForkTask, TouchPage, WriteByte, ExitTask, ExecTask, ArgSpace, Need, Free;
    KernelMem(s, kernel);
    if !Legal(s, op) {
      return;
    }
    StepTakes(s, kernel, op);
    match op {
      case Fork(p, c) => ForkInv(s, kernel, p, c);
      case Touch(t, r, i, n) => TouchInv(s, kernel, t, r, i, n);
      case Write(t, r, i, k, v, n) => WriteInv(s, kernel, t, r, i, k, v, n);
      case Exit(t) => ExitInv(s, kernel, t);
      case Exec(t, x, pages) => ExecInv(s, kernel, t, x, pages);
    }
  }

  /** Runs a list of requests; the second result says which of them found the memory they needed. */
  ghost function Run(s: Sys, ops: seq<Op>): (res: (Sys, seq<bool>))
    requires Shape(s.mem) && |s.task| == |s.exec| == NR_TASKS && Images(s.image)
    ensures Shape(res.0.mem) && |res.0.task| == |res.0.exec| == NR_TASKS && res.0.image == s.image
    ensures |res.1| == |ops|
    decreases |ops|
  {
    if ops == [] then (s, [])
    else
      var (s1, ok) := Step(s, ops[0]);
      var (s2, oks) := Run(s1, ops[1..]);
      (s2, [ok] + oks)
  }

  /** The same requests on private copies; requests the slots do not allow have no effect. */
  ghost function EagerRun(e: Eager, image: seq<seq<Frame>>, ops: seq<Op>, oks: seq<bool>): Eager
    requires |oks| == |ops|
    decreases |ops|
  {
    if ops == [] then e
    else
      var e1 := if EagerLegal(e, image, ops[0]) then EagerStep(e, image, ops[0], oks[0]) else e;
      EagerRun(e1, image, ops[1..], oks[1..])
  }

  ghost predicate EagerLegal(e: Eager, image: seq<seq<Frame>>, op: Op) {
    match op
    case Fork(p, c) => p in e && 1 <= c < NR_TASKS && c !in e
    case Touch(t, r, i, _) => t in e && Offset(r, i)
    case Write(t, r, i, k, _, _) => t in e && Offset(r, i) && k < PAGE_SIZE
    case Exit(t) => t in e
    case Exec(t, x, pages) => t in e && e[t].space != map[] && ExecOk(image, x, pages)
  }

  lemma LegalAgree(s: Sys, op: Op)
    requires Shape(s.mem) && |s.task| == |s.exec| == NR_TASKS
    ensures Legal(s, op) == EagerLegal(Abs(s), s.image, op)
  {
    var e := Abs(s);
    assert forall t: nat :: t in e <==> Live(s.task, t);
  }

  /** Of the requests of a run exactly those succeed whose pages are free when their turn comes. */
  ghost predicate Warranted(s: Sys, ops: seq<Op>, oks: seq<bool>)
    requires Shape(s.mem) && |s.task| == |s.exec| == NR_TASKS && Images(s.image) && |oks| == |ops|
    decreases |ops|
  {
    ops != [] ==>
      && (Legal(s, ops[0]) ==> (oks[0] <==> Enough(s, ops[0])))
      && Warranted(Step(s, ops[0]).0, ops[1..], oks[1..])
  }

  /** Copy-on-write is invisible: after any run of forks, faults, writes, execves and exits every task
      reads exactly what it would if fork had copied every page; and no request fails while the pages it needs
      are free. */
  lemma {:induction false} CopyOnWriteRefinesEagerCopy(s: Sys, kernel: multiset<PageNo>, ops: seq<Op>)
    requires SysInv(s, kernel)
    ensures var (s', oks) := Run(s, ops);
            && SysInv(s', kernel) && Abs(s') == EagerRun(Abs(s), s.image, ops, oks)
            && Warranted(s, ops, oks)
    decreases |ops|
  {
    hide Enough;
    if ops == [] {
      return;
    }
    StepInv(s, kernel, ops[0]);
    LegalAgree(s, ops[0]);
    var (s1, ok) := Step(s, ops[0]);
    CopyOnWriteRefinesEagerCopy(s1, kernel, ops[1..]);
    var (s2, oks) := Run(s1, ops[1..]);
    assert ([ok] + oks)[1..] == oks;
  }

  lemma AbsOf(s: Sys, u: nat)
    requires Shape(s.mem) && |s.task| == |s.exec| == NR_TASKS
    ensures u in Abs(s) <==> Live(s.task, u)
    ensures u in Abs(s) ==> Abs(s)[u] == Private(SpaceOf(s.mem, u), s.exec[u])
  {
  }

  /** No write, fault, execve, fork or exit by one task changes what another live task reads. */
  lemma OthersUntouched(s: Sys, kernel: multiset<PageNo>, op: Op, u: nat)
    requires SysInv(s, kernel) && Legal(s, op) && Live(s.task, u)
    requires (match op case Fork(_, _) => true case Touch(t, _, _, _) => t != u case Write(t, _, _, _, _, _) => t != u
        case Exit(t) => t != u case Exec(t, _, _) => t != u)
    ensures var s' := Step(s, op).0;
            Live(s'.task, u) && SpaceOf(s'.mem, u) == SpaceOf(s.mem, u)
  {
    hide Step, Abs, SpaceOf, Enough, Balanced, Exclusive, WritableAlone, SameOffset, TablesApart, Tidy, Clean;
    StepInv(s, kernel, op);
    AbsOf(s, u);
    AbsOf(Step(s, op).0, u);
  }

  lemma RunInv(s: Sys, kernel: multiset<PageNo>, ops: seq<Op>)
    requires SysInv(s, kernel)
    ensures SysInv(Run(s, ops).0, kernel)
  {
    hide SysInv, Run, Warranted, EagerRun, Abs;
    CopyOnWriteRefinesEagerCopy(s, kernel, ops);
  }

  /** After any run: every count is the entries, table and holds it stands for; a page the kernel
      does not hold is shared by fewer tasks than there are slots, so the byte never wraps and never
      reaches USED; a writable page is counted once; and no panic was reached. */
  lemma CountsInEveryRun(s: Sys, kernel: multiset<PageNo>, ops: seq<Op>, pn: PageNo)
    requires SysInv(s, kernel) && LOW_PAGES <= pn
    ensures var s' := Run(s, ops).0;
            var h := Held(kernel, s'.task);
            && !s'.mem.panic
            && s'.mem.count[pn - LOW_PAGES] == |Users(s'.mem, pn)| + (if IsTable(s'.mem, pn) then 1 else 0) + h[pn]
            && (h[pn] == 0 ==> s'.mem.count[pn - LOW_PAGES] < NR_TASKS < USED)
            && (forall d: nat, i: nat :: User(d, i) && At(s'.mem, d, i).Names(pn) && At(s'.mem, d, i).rw ==>
                  s'.mem.count[pn - LOW_PAGES] == 1)
  {
    hide Run;
    RunInv(s, kernel, ops);
    var s' := Run(s, ops).0;
    CountBounded(s'.mem, Held(kernel, s'.task), pn);
    assert |Users(s'.mem, pn)| >= 0;
  }

  // ----------------------------------------------------------------- booting

  /** mem_init: everything is USED except the pages from `start` up to `high`. */
  function MemInit(start: nat, high: nat): (count: seq<nat>)
    requires LOW_PAGES <= start <= high <= 0x1000
    ensures |count| == PAGING_PAGES
  {
    seq(PAGING_PAGES, k requires 0 <= k => if start <= k + LOW_PAGES < high then 0 else USED)
  }

  /** The state mem_init leaves, before the first fork, satisfies everything above. */
  lemma BootInv(start: nat, high: nat, dir: seq<PageNo>, table: seq<seq<Entry>>, data: seq<Frame>,
      image: seq<seq<Frame>>)
    requires LOW_PAGES <= start <= high <= 0x1000 && Images(image)
    requires |dir| == DIRS && |table| == |data| == 0x1000
    requires forall p :: 0 <= p < 0x1000 ==> |table[p]| == ENTRIES && |data[p]| == PAGE_SIZE
    requires forall d :: SLOT_DIRS <= d < DIRS ==> dir[d] == 0
    ensures var m := Mem(high, MemInit(start, high), dir, table, data, false);
            var s := Sys(m, seq(NR_TASKS, _ => 0), seq(NR_TASKS, _ => 0), image);
            SysInv(s, KernelHolds(m.count, PAGING_PAGES)) && Abs(s) == map[]
  {
    var m := Mem(high, MemInit(start, high), dir, table, data, false);
    var task: seq<PageNo> := seq(NR_TASKS, _ => 0);
    var exec: seq<nat> := seq(NR_TASKS, _ => 0);
    assert Shape(m);
    forall d: nat, i: nat | User(d, i)
      ensures At(m, d, i) == Absent
    {
      assert m.dir[d] == 0;
    }
    forall pn: PageNo
      ensures Users(m, pn) == {} && !IsTable(m, pn)
    {
    }
    assert forall p :: p in multiset(task) ==> p == 0;
    assert Inv(m, Held(KernelHolds(m.count, PAGING_PAGES), task));
    assert Clean(m, exec, image) && Tidy(m, task);
    assert Abs(Sys(m, task, exec, image)) == map[];
  }
}
