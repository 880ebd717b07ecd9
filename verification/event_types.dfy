/** Constants and values shared by the event-loop modules (include/nebula/async_event.h). */
module EventTypes {
  /** An event mask: a subset of RDWR. The four uint32_t operations the loop uses on masks. */
  datatype Mask = Mask(readable: bool, writable: bool) {
    // this | other
    function Or(other: Mask): Mask {
      Mask(readable || other.readable, writable || other.writable)
    }

    // this & other
    function And(other: Mask): Mask {
      Mask(readable && other.readable, writable && other.writable)
    }

    // this & ~other
    function Minus(other: Mask): Mask {
      Mask(readable && !other.readable, writable && !other.writable)
    }

    predicate Within(other: Mask) {
      (readable ==> other.readable) && (writable ==> other.writable)
    }
  }

  // ae_event_type_t
  const NONE := Mask(false, false)
  const READABLE := Mask(true, false)
  const WRITABLE := Mask(false, true)
  const RDWR := Mask(true, true)

  /** The epoll_event.events word passed to epoll_ctl: always edge-triggered (EPOLLET). */
  datatype Interest = EdgeTriggered(epollin: bool, epollout: bool)

  /** The epoll_event.events word epoll_wait stores. */
  datatype Events = Events(epollin: bool, epollout: bool, epollerr: bool, epollhup: bool)

  const OK := 0
  const ERROR := -1

  /** The four pointers a caller registers with an fd; 0 is NULL. */
  datatype Handler = Handler(proc: nat, data: nat, procExp: nat, dataExp: nat)

  /** ae_fd_event_info_t. */
  datatype FdInfo = FdInfo(monitored: Mask, fired: Mask, handler: Handler)

  /** What memset(info, 0, sizeof(*info)) leaves. */
  const CLEARED := FdInfo(NONE, NONE, Handler(0, 0, 0, 0))

  /** ae_time_event_info_t. */
  datatype TimeEvent = TimeEvent(id: nat, when: int, proc: nat, data: nat)

  /** The events word for a mask. */
  function InterestOf(monitored: Mask): (i: Interest)
    ensures i.epollin <==> monitored.readable
    ensures i.epollout <==> monitored.writable
  {
    EdgeTriggered(monitored.And(READABLE) != NONE, monitored.And(WRITABLE) != NONE)
  }

  /** The loop's own mask for the bits epoll_wait reported. */
  function Reported(events: Events): Mask {
    (if events.epollin then READABLE else NONE).Or(if events.epollout then WRITABLE else NONE)
  }
}
