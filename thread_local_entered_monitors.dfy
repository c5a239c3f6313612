/**
 * com.enea.jcarder.agent.ThreadLocalEnteredMonitors: for each thread, the
 * list of monitors it has entered, newest first.  The ThreadLocal is a map
 * from thread id to that thread's list, and the calling thread is a
 * parameter; the element type stands for EnteredMonitor, which is not part
 * of this model.
 */
module ThreadLocalEnteredMonitors {
  import opened Wrappers

  class ThreadLocalEnteredMonitors<M> {
    /** The lists of the threads that have used this ThreadLocal so far. */
    var lists: map<int, seq<M>>

    constructor ()
      ensures lists == map[]
    {
      lists := map[];
    }

    /** ThreadLocal.get: the thread's list; initialValue is an empty list. */
    function ListOf(thread: int): seq<M>
      reads this
    {
      if thread in lists then lists[thread] else []
    }

    /** getIterator: the thread's monitors, newest first. */
    function Iterator(thread: int): (r: seq<M>)
      reads this
      ensures thread !in lists ==> r == []
      ensures thread in lists ==> r == lists[thread]
    {
      ListOf(thread)
    }

    /** getFirst: null for an empty list, and otherwise the newest monitor. */
    function GetFirst(thread: int): (r: Option<M>)
      reads this
      ensures r.None? <==> ListOf(thread) == []
      ensures r.Some? ==> r.value == ListOf(thread)[0]
    {
      var list := ListOf(thread);
      if list == [] then None else Some(list[0])
    }

    /**
     * addFirst: the monitor becomes the thread's first, the older ones keep
     * their order behind it, and no other thread's list changes.
     */
    method AddFirst(thread: int, enteredMonitor: M)
      modifies this
      ensures lists == old(lists)[thread := [enteredMonitor] + old(ListOf(thread))]
      ensures GetFirst(thread) == Some(enteredMonitor)
      ensures Iterator(thread)[1..] == old(Iterator(thread))
      ensures forall t :: t != thread ==> ListOf(t) == old(ListOf(t))
    {
      lists := lists[thread := [enteredMonitor] + ListOf(thread)];
    }
  }

  /** Monitors added one after another are iterated in the reverse order. */
  method AddTwo<M>(monitors: ThreadLocalEnteredMonitors<M>, thread: int, older: M, newer: M)
    modifies monitors
    ensures monitors.Iterator(thread) == [newer, older] + old(monitors.Iterator(thread))
  {
    monitors.AddFirst(thread, older);
    monitors.AddFirst(thread, newer);
  }
}
