/**
 When a request finds its memory: if and only if the pages it needs are free. Nothing else makes a fork, a page
 fault, a write or an execve fail.
*/
module RequestDemand {
  import opened PageTables
  import opened CowPaging
  import opened ExecPages
  import opened PageDemand
  import opened EagerCopy

  /** The free pages a request needs: fork one for the task structure and one for each page table of the parent, a
      fault one for the page, if nobody shares it, and one for a missing page table, a write one for the copy of a
      page that is not the task's own, execve one for each page of arguments, and exit none. */
  ghost function Need(s: Sys, op: Op): nat
    requires Shape(s.mem) && |s.task| == |s.exec| == NR_TASKS && Legal(s, op)
  {
    match op
    case Fork(p, _) => 1 + |Tables(s.mem, FirstDir(p), SLOT_DIRS)|
    case Touch(t, r, i, n) => if At(s.mem, DirAt(t, r), i).Present? then 0 else FaultNeed(s, t, r, i, n)
    case Write(t, r, i, _, _, _) =>
      var e := At(s.mem, DirAt(t, r), i);
      if e.Present? then WriteNeed(s.mem, e) else Lacks(s.mem, DirAt(t, r)) + 1
    case Exit(_) => 0
    case Exec(_, _, pages) => |pages|
  }

  lemma ForkTakes(s: Sys, kernel: multiset<PageNo>, p: nat, c: nat)
    requires SysInv(s, kernel) && Live(s.task, p) && 1 <= c < NR_TASKS && s.task[c] == 0
    ensures ForkTask(s, p, c).1 <==> 1 + |Tables(s.mem, FirstDir(p), SLOT_DIRS)| <= |Free(s.mem)|
  {
    var h := Held(kernel, s.task);
    TakesOne(s.mem);
    GetFreePageInv(s.mem, h);
    var (m1, pn) := GetFreePage(s.mem);
    if pn == 0 {
      return;
    }
    forall d: nat | FirstDir(c) <= d < FirstDir(c) + SLOT_DIRS
      ensures m1.dir[d] == 0
    {
      assert SlotOf(d) == c;
    }
    CopyTablesTakes(m1, h + multiset{pn}, FirstDir(p), FirstDir(c), SLOT_DIRS);
    assert Tables(m1, FirstDir(p), SLOT_DIRS) == Tables(s.mem, FirstDir(p), SLOT_DIRS);
  }

  lemma TouchTakes(s: Sys, kernel: multiset<PageNo>, t: nat, r: nat, i: nat, n: nat)
    requires SysInv(s, kernel) && Live(s.task, t) && Offset(r, i) && |s.task| == |s.exec| == NR_TASKS && Images(s.image)
    requires Shape(s.mem) && At(s.mem, DirAt(t, r), i) == Absent
    ensures var (s', ok) := TouchPage(s, t, r, i, n);
            var need := FaultNeed(s, t, r, i, n);
            && (ok <==> need <= |Free(s.mem)|)
            && (ok ==>
                  && User(DirAt(t, r), i)
                  && TookFor(s.mem, DirAt(t, r), i, need, !Found(s, t, r, i, n), s'.mem))
  {
    KernelMem(s, kernel);
    hide SysInv, Inv, NoPage, ExitTask, FaultNeed, TookFor, Found, Free;
    NoPageTakes(s, Held(kernel, s.task), t, r, i, n);
  }

  lemma WriteTakes(s: Sys, kernel: multiset<PageNo>, t: nat, r: nat, i: nat, k: nat, v: Byte, n: nat)
    requires SysInv(s, kernel) && Live(s.task, t) && Offset(r, i) && k < PAGE_SIZE
    requires |s.task| == |s.exec| == NR_TASKS && Images(s.image) && Shape(s.mem)
    ensures var e := At(s.mem, DirAt(t, r), i);
            WriteByte(s, t, r, i, k, v, n).1 <==>
              (if e.Present? then WriteNeed(s.mem, e) else Lacks(s.mem, DirAt(t, r)) + 1) <= |Free(s.mem)|
  {
    DirOf(t, r, i);
    NeverSwapped(s, kernel, DirAt(t, r), i);
    hide SysInv, Inv, UserWrite, ExitTask, Free, WriteNeed, NoPage;
    var d := DirAt(t, r);
    if At(s.mem, d, i).Present? {
      UserWriteTakes(s.mem, d, i, k, v);
    } else {
      TouchTakes(s, kernel, t, r, i, n);
      var (s1, ok) := TouchPage(s, t, r, i, n);
      if ok {
        UserWriteTakes(s1.mem, d, i, k, v);
      }
    }
  }

  lemma NeverSwapped(s: Sys, kernel: multiset<PageNo>, d: nat, i: nat)
    requires SysInv(s, kernel) && User(d, i) && Shape(s.mem)
    ensures !At(s.mem, d, i).Swapped?
  {
    hide Inv, Clean;
  }

  lemma ExecTakes(s: Sys, t: nat, x: nat, pages: seq<Frame>)
    requires Shape(s.mem) && t < NR_TASKS == |s.task| == |s.exec| && |pages| <= MAX_ARG_PAGES
    requires forall j :: 0 <= j < |pages| ==> |pages[j]| == PAGE_SIZE
    ensures ExecTask(s, t, x, pages).1 <==> |pages| <= |Free(s.mem)|
  {
    hide Free, TakeArgs, FreeArgs, PutArgs, FreeTables;
    TakeArgsTakes(s.mem, pages);
  }

  /** A request succeeds if and only if the pages it needs are free. */
  lemma StepTakes(s: Sys, kernel: multiset<PageNo>, op: Op)
    requires SysInv(s, kernel) && Shape(s.mem) && |s.task| == |s.exec| == NR_TASKS && Images(s.image) && Legal(s, op)
    ensures Step(s, op).1 <==> Need(s, op) <= |Free(s.mem)|
  {
    hide SysInv, ForkTask, WriteByte, ExitTask, ExecTask, NoPage, SpaceOf, Free, FaultNeed, Images;
    match op {
      case Fork(p, c) => ForkTakes(s, kernel, p, c);
      case Touch(t, r, i, n) =>
        if !At(s.mem, DirAt(t, r), i).Present? {
          DirOf(t, r, i);
          NeverSwapped(s, kernel, DirAt(t, r), i);
          TouchTakes(s, kernel, t, r, i, n);
        }
      case Write(t, r, i, k, v, n) => WriteTakes(s, kernel, t, r, i, k, v, n);
      case Exit(t) =>
      case Exec(t, x, pages) => ExecTakes(s, t, x, pages);
    }
  }

  /** No request needs more than the pages of the largest argument list. */
  lemma NeedBounded(s: Sys, op: Op)
    requires Shape(s.mem) && |s.task| == |s.exec| == NR_TASKS && Legal(s, op)
    ensures Need(s, op) <= MAX_ARG_PAGES
    ensures op.Fork? ==> Need(s, op) <= 1 + SLOT_DIRS
    ensures op.Touch? || op.Write? ==> Need(s, op) <= 2
  {
    hide SpaceOf;
    if op.Fork? {
      TablesBounded(s.mem, FirstDir(op.parent), SLOT_DIRS);
    }
  }

  lemma {:induction false} TablesBounded(m: Mem, d: nat, n: nat)
    requires Shape(m) && d + n <= DIRS
    ensures |Tables(m, d, n)| <= n
    decreases n
  {
    if n == 0 {
      assert Tables(m, d, n) == {};
    } else {
      TablesSplit(m, d, n);
      TablesBounded(m, d + 1, n - 1);
      assert Tables(m, d, 1) <= {d};
      assert Tables(m, d, 1) == {} || Tables(m, d, 1) == {d};
    }
  }
}
