/** The fd half of AsyncEvent: the fd table, the compact ready list, the monitored-fd
    counter and the kernel's epoll interest set, as values. */
module FdTable {
  import opened EventTypes

  /** `slots` is the whole list_of_ready_fds_ array; only slots[..numReady] is the ready list, the rest
      is stale. `interest` is the kernel's side: the registered fds with the events asked for. */
  datatype FdState = FdState(
    info: seq<FdInfo>,
    slots: seq<int>,
    numReady: int,
    numMonitored: int,
    interest: map<int, Interest>)

  datatype CtlOp = CtlAdd | CtlMod | CtlDel

  datatype CtlResult = CtlOk(interest: map<int, Interest>) | CtlFailed

  /** epoll_ctl. It refuses to add a registered fd and to change or delete an unregistered one
      (EEXIST, ENOENT); otherwise `willing` says whether it fails for a reason of its own. */
  function EpollCtl(interest: map<int, Interest>, op: CtlOp, fd: int, events: Interest, willing: bool): CtlResult {
    if !willing || (fd in interest <==> op.CtlAdd?) then CtlFailed
    else if op.CtlDel? then CtlOk(interest - {fd})
    else CtlOk(interest[fd := events])
  }

  /** The three ready-list scans: the first slot holding fd is overwritten by the last entry. */
  function DropReady(s: FdState, fd: int): FdState
    requires s.numReady <= |s.slots|
  {
    if s.numReady > 0 && fd in s.slots[..s.numReady] then
      var i := FirstIndex(s.slots[..s.numReady], fd);
      s.(slots := s.slots[i := s.slots[s.numReady - 1]], numReady := s.numReady - 1)
    else s
  }

  function FirstIndex(list: seq<int>, x: int): (i: nat)
    requires x in list
    ensures i < |list| && list[i] == x && x !in list[..i]
  {
    if list[0] == x then 0
    else
      assert x in list[1..];
      var j := FirstIndex(list[1..], x);
      assert forall k :: 0 < k < j + 1 ==> list[k] == list[1..][..j][k - 1];
      j + 1
  }

  predicate InTable(s: FdState, fd: int) {
    0 <= fd < |s.info|
  }

  function AddFd(s: FdState, fd: int, mask: Mask, handler: Handler, willing: bool): (r: (FdState, int))
    ensures r.1 == ERROR ==> r.0 == s
  {
    if !InTable(s, fd) then (s, ERROR)
    else
      var old_info := s.info[fd];
      var op := if old_info.monitored == NONE then CtlAdd else CtlMod;
      var info := FdInfo(old_info.monitored.Or(mask), old_info.fired, handler);
      match EpollCtl(s.interest, op, fd, InterestOf(info.monitored), willing)
      case CtlFailed => (s, ERROR)
      case CtlOk(interest) =>
        (s.(info := s.info[fd := info],
            interest := interest,
            numMonitored := if op.CtlAdd? then s.numMonitored + 1 else s.numMonitored), OK)
  }

  function DelFd(s: FdState, fd: int, mask: Mask, willing: bool): (r: (FdState, int))
    requires s.numReady <= |s.slots|
    ensures r.1 == ERROR ==> r.0 == s
  {
    if !InTable(s, fd) then (s, ERROR)
    else if mask == NONE then (s, OK)
    else
      var left := s.info[fd].monitored.Minus(mask);
      if left != NONE then
        match EpollCtl(s.interest, CtlMod, fd, InterestOf(left), willing)
        case CtlFailed => (s, ERROR)
        case CtlOk(interest) =>
          (s.(info := s.info[fd := s.info[fd].(monitored := left)], interest := interest), OK)
      else Unregister(s, fd, willing)
  }

  function RemoveFd(s: FdState, fd: int, willing: bool): (r: (FdState, int))
    requires s.numReady <= |s.slots|
    ensures r.1 == ERROR ==> r.0 == s
  {
    if !InTable(s, fd) then (s, ERROR)
    else if s.info[fd].monitored == NONE then (s, OK)
    else Unregister(s, fd, willing)
  }

  /** The common tail of delFdEvent and removeFd: EPOLL_CTL_DEL, then forget the fd. */
  function Unregister(s: FdState, fd: int, willing: bool): (r: (FdState, int))
    requires InTable(s, fd) && s.numReady <= |s.slots|
    ensures r.1 == ERROR ==> r.0 == s
  {
    match EpollCtl(s.interest, CtlDel, fd, InterestOf(NONE), willing)
    case CtlFailed => (s, ERROR)
    case CtlOk(interest) =>
      (DropReady(s.(info := s.info[fd := CLEARED], interest := interest, numMonitored := s.numMonitored - 1), fd), OK)
  }

  function Ready(s: FdState): seq<int>
    requires 0 <= s.numReady <= |s.slots|
  {
    s.slots[..s.numReady]
  }

  /** What array indexing needs. A corrupted pass can drive numReady to -1. */
  ghost predicate Shape(s: FdState) {
    && |s.slots| == |s.info|
    && s.numReady <= |s.slots|
    && (forall i :: 0 <= i < s.numReady ==> InTable(s, s.slots[i]))
  }

  /** The ready list has no duplicates and holds exactly the fds with recorded events, all monitored. */
  ghost predicate ReadyInv(s: FdState) {
    && |s.slots| == |s.info|
    && 0 <= s.numReady <= |s.slots|
    && (forall i, j :: 0 <= i < j < s.numReady ==> s.slots[i] != s.slots[j])
    && (forall i :: 0 <= i < s.numReady ==> InTable(s, s.slots[i]) && s.info[s.slots[i]].fired != NONE)
    && (forall fd :: InTable(s, fd) && s.info[fd].fired != NONE ==>
          fd in s.slots[..s.numReady] && s.info[fd].monitored != NONE)
  }

  function MonitoredFds(s: FdState): set<int> {
    set fd | 0 <= fd < |s.info| && s.info[fd].monitored != NONE
  }

  /** The counter, the table and the kernel agree. */
  ghost predicate KernelInv(s: FdState) {
    && s.numMonitored == |MonitoredFds(s)|
    && s.interest.Keys == MonitoredFds(s)
    && (forall fd :: fd in s.interest ==> InTable(s, fd) && s.interest[fd] == InterestOf(s.info[fd].monitored))
    && (forall fd :: InTable(s, fd) && s.info[fd].monitored == NONE ==> s.info[fd] == CLEARED)
  }

  ghost predicate Inv(s: FdState) {
    ReadyInv(s) && KernelInv(s)
  }

  function Fresh(size: nat): FdState {
    FdState(seq(size, _ => CLEARED), seq(size, _ => 0), 0, 0, map[])
  }

  lemma FreshInv(size: nat)
    ensures Inv(Fresh(size))
  {
    var s := Fresh(size);
    assert MonitoredFds(s) == {};
  }

  // ----- the three table operations -----

  lemma DropReadyFacts(s: FdState, fd: int)
    requires |s.slots| == |s.info| && 0 <= s.numReady <= |s.slots|
    requires forall i, j :: 0 <= i < j < s.numReady ==> s.slots[i] != s.slots[j]
    ensures var d := DropReady(s, fd);
      && d.info == s.info && d.interest == s.interest && d.numMonitored == s.numMonitored
      && |d.slots| == |s.slots| && 0 <= d.numReady <= s.numReady
      && (forall i, j :: 0 <= i < j < d.numReady ==> d.slots[i] != d.slots[j])
      && (forall x :: x in Ready(d) <==> x in Ready(s) && x != fd)
  {
    if fd in s.slots[..s.numReady] {
      var i := FirstIndex(s.slots[..s.numReady], fd);
      var d := DropReady(s, fd);
      var last := s.numReady - 1;
      assert i < last ==> Ready(d) == s.slots[..last][i := s.slots[last]];
      forall x ensures x in Ready(d) <==> x in Ready(s) && x != fd {
        if x in Ready(d) {
          var k :| 0 <= k < d.numReady && Ready(d)[k] == x;
          assert s.slots[if k == i then last else k] == x;
          assert Ready(s)[if k == i then last else k] == x;
        }
        if x in Ready(s) && x != fd {
          var k :| 0 <= k < s.numReady && s.slots[k] == x;
          assert Ready(d)[if k == last then i else k] == x;
        }
      }
    }
  }

  /** The ready list never outgrows the fd table, and one more fd that is not in it still fits. */
  lemma ReadyFits(s: FdState, fd: int)
    requires ReadyInv(s) && InTable(s, fd) && s.info[fd].fired == NONE
    ensures s.numReady < |s.slots|
  {
    var list := s.slots[..s.numReady];
    var listed := set x | x in list;
    CountListed(list);
    ListedInTable(s, fd);
    SubsetSize(listed, Below(|s.info|) - {fd});
  }

  lemma SubsetSize(a: set<int>, b: set<int>)
    requires a <= b
    ensures |a| <= |b|
  {
    assert b == a + (b - a);
  }

  lemma ListedInTable(s: FdState, fd: int)
    requires ReadyInv(s) && InTable(s, fd) && s.info[fd].fired == NONE
    ensures (set x | x in s.slots[..s.numReady]) <= Below(|s.info|) - {fd}
  {}

  lemma {:induction false} CountListed(list: seq<int>)
    requires forall i, j :: 0 <= i < j < |list| ==> list[i] != list[j]
    ensures |set x | x in list| == |list|
  {
    if list != [] {
      var init := list[..|list| - 1];
      CountListed(init);
      assert (set x | x in list) == (set x | x in init) + {list[|list| - 1]};
    }
  }

  /** {0, ..., n - 1}. */
  function Below(n: nat): (r: set<int>)
    ensures forall k :: k in r <==> 0 <= k < n
    ensures |r| == n
  {
    if n == 0 then {} else Below(n - 1) + {n - 1}
  }

  lemma ReadySame(s: FdState, t: FdState)
    requires ReadyInv(s)
    requires t.slots == s.slots && t.numReady == s.numReady && |t.info| == |s.info|
    requires forall fd :: InTable(s, fd) ==> t.info[fd].fired == s.info[fd].fired
    requires forall fd :: InTable(s, fd) && s.info[fd].monitored != NONE ==> t.info[fd].monitored != NONE
    ensures ReadyInv(t)
  {}

  /** fd is monitored for x.monitored from now on. */
  function Retarget(s: FdState, fd: int, x: FdInfo): FdState
    requires InTable(s, fd)
  {
    s.(info := s.info[fd := x],
       interest := s.interest[fd := InterestOf(x.monitored)],
       numMonitored := if s.info[fd].monitored == NONE then s.numMonitored + 1 else s.numMonitored)
  }

  lemma RetargetMonitored(s: FdState, fd: int, x: FdInfo)
    requires InTable(s, fd) && x.monitored != NONE
    ensures var t := Retarget(s, fd, x);
      && MonitoredFds(t) == MonitoredFds(s) + {fd}
      && |MonitoredFds(t)| - |MonitoredFds(s)| == t.numMonitored - s.numMonitored
  {
    if s.info[fd].monitored != NONE {
      assert MonitoredFds(s) + {fd} == MonitoredFds(s);
    }
  }

  lemma RetargetKernel(s: FdState, fd: int, x: FdInfo)
    requires KernelInv(s) && InTable(s, fd) && x.monitored != NONE
    ensures KernelInv(Retarget(s, fd, x))
  {
    RetargetMonitored(s, fd, x);
    hide InterestOf, MonitoredFds;
    var t := Retarget(s, fd, x);
    assert t.numMonitored == |MonitoredFds(t)| && t.interest.Keys == MonitoredFds(t);
    forall g | g in t.interest ensures InTable(t, g) && t.interest[g] == InterestOf(t.info[g].monitored) {
      if g != fd { assert g in s.interest; }
    }
    forall g | InTable(t, g) && t.info[g].monitored == NONE ensures t.info[g] == CLEARED {
      assert g != fd;
    }
  }

  lemma RetargetKeepsInv(s: FdState, fd: int, x: FdInfo)
    requires Inv(s) && InTable(s, fd) && x.fired == s.info[fd].fired && x.monitored != NONE
    ensures Inv(Retarget(s, fd, x))
  {
    RetargetKernel(s, fd, x);
    ReadySame(s, Retarget(s, fd, x));
  }

  /** addFdEvent keeps the invariant on every outcome, except when it registers a new fd for no event. */
  lemma AddFdKeepsInvIff(s: FdState, fd: int, mask: Mask, handler: Handler, willing: bool)
    requires Inv(s)
    ensures Inv(AddFd(s, fd, mask, handler, willing).0) <==>
            !(InTable(s, fd) && s.info[fd].monitored == NONE && mask == NONE && willing)
  {
    if InTable(s, fd) && willing {
      var before := s.info[fd];
      var x := FdInfo(before.monitored.Or(mask), before.fired, handler);
      assert before.monitored.Or(mask) == NONE <==> before.monitored == NONE && mask == NONE;
      var t := AddFd(s, fd, mask, handler, willing).0;
      assert fd in s.interest <==> before.monitored != NONE;
      assert t == Retarget(s, fd, x);
      if x.monitored != NONE {
        RetargetKeepsInv(s, fd, x);
      } else {
        assert fd in t.interest && fd !in MonitoredFds(t);
      }
    }
  }

  /** The state Unregister leaves before it scans the ready list. */
  function Forget(s: FdState, fd: int): FdState
    requires InTable(s, fd)
  {
    s.(info := s.info[fd := CLEARED], interest := s.interest - {fd}, numMonitored := s.numMonitored - 1)
  }

  lemma ForgetKernel(s: FdState, fd: int)
    requires KernelInv(s) && InTable(s, fd) && s.info[fd].monitored != NONE
    ensures KernelInv(Forget(s, fd))
  {
    var t := Forget(s, fd);
    assert MonitoredFds(t) == MonitoredFds(s) - {fd};
    forall g | g in t.interest ensures InTable(t, g) && t.interest[g] == InterestOf(t.info[g].monitored) {
      assert g in s.interest;
    }
  }

  /** Everything ReadyInv says, except that fd may still be listed although its events were cleared. */
  ghost predicate ReadyInvBut(s: FdState, fd: int) {
    && |s.slots| == |s.info|
    && 0 <= s.numReady <= |s.slots|
    && (forall i, j :: 0 <= i < j < s.numReady ==> s.slots[i] != s.slots[j])
    && (forall i :: 0 <= i < s.numReady ==>
          InTable(s, s.slots[i]) && (s.slots[i] != fd ==> s.info[s.slots[i]].fired != NONE))
    && (forall g :: InTable(s, g) && s.info[g].fired != NONE ==>
          g in s.slots[..s.numReady] && s.info[g].monitored != NONE)
    && (InTable(s, fd) ==> s.info[fd].fired == NONE)
  }

  lemma ForgetReady(s: FdState, fd: int)
    requires ReadyInv(s) && InTable(s, fd)
    ensures ReadyInvBut(Forget(s, fd), fd)
  {
    assert Forget(s, fd).slots[..s.numReady] == s.slots[..s.numReady];
  }

  lemma DropReadyInv(m: FdState, fd: int)
    requires ReadyInvBut(m, fd)
    ensures ReadyInv(DropReady(m, fd))
  {
    DropReadyFacts(m, fd);
    var t := DropReady(m, fd);
    forall i | 0 <= i < t.numReady ensures InTable(t, t.slots[i]) && t.info[t.slots[i]].fired != NONE {
      assert t.slots[i] in Ready(t);
    }
    forall g | InTable(t, g) && t.info[g].fired != NONE
      ensures g in t.slots[..t.numReady] && t.info[g].monitored != NONE
    {
      assert g in Ready(m);
    }
  }

  lemma UnregisterKeepsInv(s: FdState, fd: int, willing: bool)
    requires Inv(s) && InTable(s, fd)
    ensures Inv(Unregister(s, fd, willing).0)
    ensures Unregister(s, fd, willing).1 == OK <==> willing && s.info[fd].monitored != NONE
  {
    if willing && s.info[fd].monitored != NONE {
      ForgetKernel(s, fd);
      ForgetReady(s, fd);
      DropReadyInv(Forget(s, fd), fd);
      DropReadyFacts(Forget(s, fd), fd);
      KernelOnly(Forget(s, fd), DropReady(Forget(s, fd), fd));
    }
  }

  lemma KernelOnly(s: FdState, t: FdState)
    requires KernelInv(s)
    requires t.info == s.info && t.interest == s.interest && t.numMonitored == s.numMonitored
    ensures KernelInv(t)
  {
    assert MonitoredFds(t) == MonitoredFds(s);
  }

  /** delFdEvent and removeFd keep the invariant on every outcome; they succeed exactly when the kernel
      is willing and the fd is registered, or there is nothing to do. */
  lemma DelFdKeepsInv(s: FdState, fd: int, mask: Mask, willing: bool)
    requires Inv(s)
    ensures Inv(DelFd(s, fd, mask, willing).0)
    ensures DelFd(s, fd, mask, willing).1 == OK <==>
            InTable(s, fd) && (mask == NONE || (willing && s.info[fd].monitored != NONE))
  {
    if InTable(s, fd) && mask != NONE {
      var before := s.info[fd];
      var left := before.monitored.Minus(mask);
      if left == NONE {
        UnregisterKeepsInv(s, fd, willing);
      } else if willing {
        assert before.monitored != NONE;
        assert DelFd(s, fd, mask, willing) == (Retarget(s, fd, before.(monitored := left)), OK);
        RetargetKeepsInv(s, fd, before.(monitored := left));
      }
    }
  }

  lemma RemoveFdKeepsInv(s: FdState, fd: int, willing: bool)
    requires Inv(s)
    ensures Inv(RemoveFd(s, fd, willing).0)
    ensures RemoveFd(s, fd, willing).1 == OK <==> InTable(s, fd) && (willing || s.info[fd].monitored == NONE)
  {
    if InTable(s, fd) && s.info[fd].monitored != NONE {
      UnregisterKeepsInv(s, fd, willing);
    }
  }

  // ----- what the operations do to the monitored events -----

  /** Two tables differ in the entry of fd only. */
  ghost predicate OnlyEntry(s: FdState, t: FdState, fd: int) {
    |t.info| == |s.info| && forall g :: InTable(s, g) && g != fd ==> t.info[g] == s.info[g]
  }

  /** The kernel watches fd for input exactly if it is monitored for reading, for output exactly if it is
      monitored for writing, and not at all exactly if for neither. */
  predicate KernelAsked(s: FdState, fd: int)
    requires InTable(s, fd)
  {
    var m := s.info[fd].monitored;
    && (fd in s.interest <==> m.readable || m.writable)
    && (fd in s.interest ==> (s.interest[fd].epollin <==> m.readable) && (s.interest[fd].epollout <==> m.writable))
  }

  /** The invariant keeps the kernel asked for the monitored events. */
  lemma KernelIsAsked(s: FdState, fd: int)
    requires KernelInv(s) && InTable(s, fd)
    ensures KernelAsked(s, fd)
  {
    assert fd in MonitoredFds(s) <==> s.info[fd].monitored != NONE;
  }

  /** After a successful addFdEvent an event is monitored exactly if it was before or was asked for, and the
      kernel is asked for exactly those; what was recorded stays; no other fd is touched. */
  lemma AddFdMonitorsIff(s: FdState, fd: int, mask: Mask, handler: Handler, willing: bool, b: Mask)
    requires Inv(s) && (b == READABLE || b == WRITABLE)
    ensures var (t, rc) := AddFd(s, fd, mask, handler, willing);
      && (rc == OK <==> InTable(s, fd) && willing)
      && (rc == OK ==>
            && (b.Within(t.info[fd].monitored) <==> b.Within(s.info[fd].monitored) || b.Within(mask))
            && (t.info[fd].monitored != NONE ==> KernelAsked(t, fd))
            && t.info[fd].handler == handler && t.info[fd].fired == s.info[fd].fired
            && OnlyEntry(s, t, fd) && t.slots == s.slots && t.numReady == s.numReady)
  {
    assert InTable(s, fd) ==> (fd in s.interest <==> s.info[fd].monitored != NONE);
  }

  /** After a successful delFdEvent an event is monitored exactly if it was before and was not named; an fd
      left without events is forgotten altogether. */
  lemma DelFdMonitorsIff(s: FdState, fd: int, mask: Mask, willing: bool, b: Mask)
    requires Inv(s) && (b == READABLE || b == WRITABLE)
    ensures var (t, rc) := DelFd(s, fd, mask, willing);
      rc == OK ==>
        && InTable(s, fd)
        && (b.Within(t.info[fd].monitored) <==> b.Within(s.info[fd].monitored) && !b.Within(mask))
        && KernelAsked(t, fd)
        && (t.info[fd].monitored == NONE ==> t.info[fd] == CLEARED && fd !in Ready(t))
        && (t.info[fd].monitored != NONE ==> t.info[fd].fired == s.info[fd].fired)
        && OnlyEntry(s, t, fd)
  {
    DelFdKeepsInv(s, fd, mask, willing);
    assert Shape(s) && s.numReady >= 0;
    hide Inv, DelFd;
    DelFdBits(s, fd, mask, willing, b);
    var (t, rc) := DelFd(s, fd, mask, willing);
    if rc == OK {
      InvMeans(t, fd);
      if t.info[fd].monitored == NONE {
        UnmonitoredIsCleared(t, fd);
      }
    }
  }

  lemma UnmonitoredIsCleared(t: FdState, fd: int)
    requires Inv(t) && InTable(t, fd) && t.info[fd].monitored == NONE
    ensures t.info[fd] == CLEARED && fd !in Ready(t)
  {}

  lemma DelFdBits(s: FdState, fd: int, mask: Mask, willing: bool, b: Mask)
    requires Shape(s) && s.numReady >= 0 && (b == READABLE || b == WRITABLE)
    ensures var (t, rc) := DelFd(s, fd, mask, willing);
      rc == OK ==>
        && InTable(s, fd) && OnlyEntry(s, t, fd)
        && (b.Within(t.info[fd].monitored) <==> b.Within(s.info[fd].monitored) && !b.Within(mask))
        && (t.info[fd].monitored != NONE ==> t.info[fd].fired == s.info[fd].fired)
  {}

  /** After a successful removeFd the fd is forgotten: not monitored, not watched, not listed. No other fd's
      entry, watch or place among the ready ones changes. */
  lemma RemoveFdForgets(s: FdState, fd: int, willing: bool, g: int)
    requires Inv(s) && InTable(s, g)
    ensures var (t, rc) := RemoveFd(s, fd, willing);
      rc == OK ==>
        && InTable(s, fd) && t.info[fd] == CLEARED && fd !in t.interest
        && 0 <= t.numReady <= |t.slots| && fd !in Ready(t)
        && OnlyEntry(s, t, fd)
        && (g != fd ==> (g in Ready(t) <==> g in Ready(s)) && KernelAsked(t, g))
  {
    RemoveFdKeepsInv(s, fd, willing);
    RemoveFdClears(s, fd, willing);
    hide RemoveFd;
    var (t, rc) := RemoveFd(s, fd, willing);
    ListedIff(s, g);
    if rc == OK {
      hide Inv;
      InvMeans(t, fd);
      InvMeans(t, g);
    }
  }

  lemma RemoveFdClears(s: FdState, fd: int, willing: bool)
    requires Shape(s) && forall g :: InTable(s, g) && s.info[g].monitored == NONE ==> s.info[g] == CLEARED
    ensures var (t, rc) := RemoveFd(s, fd, willing);
      rc == OK ==> InTable(s, fd) && t.info[fd] == CLEARED && OnlyEntry(s, t, fd)
  {
    hide FirstIndex;
  }

  lemma InvMeans(t: FdState, g: int)
    requires Inv(t) && InTable(t, g)
    ensures KernelAsked(t, g) && 0 <= t.numReady <= |t.slots| && (g in Ready(t) <==> t.info[g].fired != NONE)
  {
    KernelIsAsked(t, g);
    ListedIff(t, g);
  }

  lemma ListedIff(s: FdState, g: int)
    requires ReadyInv(s) && InTable(s, g)
    ensures g in Ready(s) <==> s.info[g].fired != NONE
  {}

  lemma ForgetUndoesRetarget(s: FdState, fd: int, x: FdInfo)
    requires InTable(s, fd) && s.info[fd] == CLEARED && fd !in s.interest
    ensures Forget(Retarget(s, fd, x), fd) == s
  {
    assert s.interest[fd := InterestOf(x.monitored)] - {fd} == s.interest;
    assert s.info[fd := x][fd := CLEARED] == s.info;
  }

  lemma DelUndoesFirstAdd(s: FdState, fd: int, mask: Mask, handler: Handler)
    requires Inv(s) && InTable(s, fd) && mask != NONE && s.info[fd].monitored == NONE
    ensures AddFd(s, fd, mask, handler, true).1 == OK
    ensures DelFd(AddFd(s, fd, mask, handler, true).0, fd, mask, true) == (s, OK)
  {
    var x := FdInfo(NONE.Or(mask), NONE, handler);
    assert s.info[fd] == CLEARED && fd !in s.interest;
    assert fd !in s.slots[..s.numReady];
    hide Inv;
    var added := AddFd(s, fd, mask, handler, true).0;
    assert added == Retarget(s, fd, x);
    ForgetUndoesRetarget(s, fd, x);
    assert added.info[fd].monitored.Minus(mask) == NONE;
    assert DropReady(s, fd) == s;
  }

  lemma DelUndoesLaterAdd(s: FdState, fd: int, mask: Mask, handler: Handler)
    requires Inv(s) && InTable(s, fd) && mask != NONE && mask.And(s.info[fd].monitored) == NONE
    requires s.info[fd].monitored != NONE
    ensures AddFd(s, fd, mask, handler, true).1 == OK
    ensures DelFd(AddFd(s, fd, mask, handler, true).0, fd, mask, true)
         == (s.(info := s.info[fd := s.info[fd].(handler := handler)]), OK)
  {
    var before := s.info[fd];
    assert fd in s.interest && s.interest[fd] == InterestOf(before.monitored);
    hide Inv;
    var x := FdInfo(before.monitored.Or(mask), before.fired, handler);
    var added := AddFd(s, fd, mask, handler, true).0;
    assert added == Retarget(s, fd, x);
    var y := before.(handler := handler);
    assert x.monitored.Minus(mask) == before.monitored;
    assert DelFd(added, fd, mask, true) == (Retarget(added, fd, y), OK);
    hide AddFd, DelFd;
    RetargetBack(s, fd, x, y);
  }

  lemma RetargetBack(s: FdState, fd: int, x: FdInfo, y: FdInfo)
    requires InTable(s, fd) && s.info[fd].monitored != NONE && x.monitored != NONE
    requires fd in s.interest && s.interest[fd] == InterestOf(y.monitored)
    ensures Retarget(Retarget(s, fd, x), fd, y) == s.(info := s.info[fd := y])
  {
    hide InterestOf;
    assert s.info[fd := x][fd := y] == s.info[fd := y];
    assert s.interest[fd := InterestOf(x.monitored)][fd := InterestOf(y.monitored)] == s.interest;
  }

  /** Deleting exactly the events that an addFdEvent added undoes it: the kernel, the counter, the ready list
      and every fd's events are as before; for an fd that was not registered, so is its handler. */
  lemma DelUndoesAdd(s: FdState, fd: int, mask: Mask, handler: Handler)
    requires Inv(s) && InTable(s, fd) && mask != NONE && mask.And(s.info[fd].monitored) == NONE
    ensures var (added, rc) := AddFd(s, fd, mask, handler, true);
      var (undone, rc') := DelFd(added, fd, mask, true);
      && rc == rc' == OK
      && undone == if s.info[fd].monitored == NONE then s
                   else s.(info := s.info[fd := s.info[fd].(handler := handler)])
  {
    hide Inv, AddFd, DelFd;
    if s.info[fd].monitored == NONE {
      DelUndoesFirstAdd(s, fd, mask, handler);
    } else {
      DelUndoesLaterAdd(s, fd, mask, handler);
    }
  }
}
