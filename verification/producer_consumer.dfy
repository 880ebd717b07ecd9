/** Queue, Consumer and Producer as objects: what one call does when no other thread interferes.
    Interleavings are the business of module Tasklets. */
module ProducerConsumer {
  import opened Options
  import opened Tasklets

  class Queue {
    var items: seq<Tasklet>
    // history: the tasklets told that they are cancelled, then deleted
    ghost var cancelled: seq<Tasklet>

    constructor ()
      ensures items == [] && cancelled == []
    {
      items, cancelled := [], [];
    }

    method PushTasklet(t: Tasklet)
      modifies this
      ensures items == old(items) + [t] && cancelled == old(cancelled)
    {
      items := items + [t];
    }

    method PopTasklet() returns (t: Option<Tasklet>)
      modifies this
      ensures cancelled == old(cancelled)
      ensures t.None? <==> old(items) == []
      ensures t.Some? ==> old(items) == [t.value] + items
      ensures t.None? ==> items == []
    {
      t := None;
      if |items| != 0 {
        t := Some(items[0]);
        items := items[1..];
      }
    }

    /** The destructor. */
    method Destroy()
      modifies this
      ensures items == [] && cancelled == old(cancelled) + old(items)
    {
      while items != []
        invariant cancelled + items == old(cancelled) + old(items)
        decreases |items|
      {
        var t := items[0];
        items := items[1..];
        cancelled := cancelled + [t];
      }
    }
  }

  /** How many tasklets a call with this limit takes when `available` are there; 0 is no limit. */
  function Taken(limit: nat, available: nat): (n: nat)
    ensures n <= available
    ensures limit != 0 ==> n <= limit
    ensures n < available ==> n == limit != 0
  {
    if limit == 0 || available <= limit then available else limit
  }

  class Consumer {
    var queue: Queue?
    // histories
    ghost var executed: seq<Tasklet>
    ghost var deleted: seq<Tasklet>

    constructor (q: Queue?)
      ensures queue == q && executed == [] && deleted == []
    {
      queue, executed, deleted := q, [], [];
    }

    method FetchNextTasklet() returns (t: Option<Tasklet>)
      modifies queue
      ensures queue == null ==> t.None?
      ensures queue != null ==> queue.cancelled == old(queue.cancelled)
      ensures queue != null ==> (t.None? <==> old(queue.items) == [])
      ensures queue != null && t.Some? ==> old(queue.items) == [t.value] + queue.items
      ensures queue != null && t.None? ==> queue.items == []
    {
      if queue == null {
        return None;
      }
      t := queue.PopTasklet();
    }

    /** Executes and then deletes tasklets from the front of the queue, as many as the limit and the queue
        allow, and returns how many. A detached consumer does nothing. */
    method FetchTaskletAndExecute(limit: nat) returns (count: nat)
      modifies this`executed, this`deleted, queue
      ensures queue == null ==> count == 0 && executed == old(executed) && deleted == old(deleted)
      ensures queue != null ==>
                var items := old(queue.items);
                && count == Taken(limit, |items|)
                && queue.items == items[count..]
                && executed == old(executed) + items[..count]
                && deleted == old(deleted) + items[..count]
    {
      count := 0;
      ghost var items := if queue == null then [] else queue.items;
      while MayGoOn(count, limit)
        invariant count <= |items| && (limit != 0 ==> count <= limit)
        invariant queue != null ==> queue.items == items[count..]
        invariant executed == old(executed) + items[..count]
        invariant deleted == old(deleted) + items[..count]
        decreases |items| - count
      {
        var t := FetchNextTasklet();
        if t.None? {
          break;
        }
        assert items[count..] == [t.value] + items[count + 1..];
        assert items[..count + 1] == items[..count] + [t.value];
        executed := executed + [t.value];
        count := count + 1;
        deleted := deleted + [t.value];
      }
    }
  }

  class Producer {
    var queue: Queue?
    // what generateNextTasklet() will return, before NULL
    var source: seq<Tasklet>
    // history: the tasklets deleted because they could not be dispatched
    ghost var failed: seq<Tasklet>

    constructor (q: Queue?, source: seq<Tasklet>)
      ensures queue == q && this.source == source && failed == []
    {
      queue, this.source, failed := q, source, [];
    }

    method GenerateNextTasklet() returns (t: Option<Tasklet>)
      modifies this`source
      ensures t.None? <==> old(source) == []
      ensures t.Some? ==> old(source) == [t.value] + source
      ensures t.None? ==> source == []
    {
      if source == [] {
        return None;
      }
      t := Some(source[0]);
      source := source[1..];
    }

    method DispatchTasklet(t: Tasklet) returns (ok: bool)
      modifies queue
      ensures ok <==> queue != null
      ensures queue != null ==> queue.items == old(queue.items) + [t]
    {
      if queue == null {
        return false;
      }
      queue.PushTasklet(t);
      ok := true;
    }

    /** Generates tasklets, as many as the limit and the source allow, and returns how many; each is pushed
        in order, or deleted if the producer is detached. */
    method GenerateTaskletAndDispatch(limit: nat) returns (count: nat)
      modifies this`source, this`failed, queue
      ensures count == Taken(limit, |old(source)|) && source == old(source)[count..]
      ensures queue != null ==> queue.items == old(queue.items) + old(source)[..count] && failed == old(failed)
      ensures queue == null ==> failed == old(failed) + old(source)[..count]
    {
      count := 0;
      ghost var all := source;
      while MayGoOn(count, limit)
        invariant count <= |all| && (limit != 0 ==> count <= limit) && source == all[count..]
        invariant queue != null ==> queue.items == old(queue.items) + all[..count] && failed == old(failed)
        invariant queue == null ==> failed == old(failed) + all[..count]
        decreases |all| - count
      {
        var t := GenerateNextTasklet();
        if t.None? {
          break;
        }
        assert all[count..] == [t.value] + all[count + 1..];
        assert all[..count + 1] == all[..count] + [t.value];
        count := count + 1;
        assert queue != null ==> queue.items + [t.value] == old(queue.items) + all[..count];
        var ok := DispatchTasklet(t.value);
        if !ok {
          failed := failed + [t.value];
        }
      }
    }
  }
}
