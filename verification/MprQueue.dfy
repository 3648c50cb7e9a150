/** A queue with peek, over a queue without: the first element may wait in a head slot. */
module MprQueue {
  import opened Options

  class Queue<T> {
    var head: Option<T>
    var queue: seq<T>

    function Contents(): seq<T>
      reads this
    {
      if head.Some? then [head.value] + queue else queue
    }

    constructor ()
      ensures Contents() == []
    {
      head, queue := None, [];
    }

    /** mpr_queue_trypop: None when there is nothing to take. */
    method TryPop() returns (r: Option<T>)
      modifies this
      ensures old(Contents()) == [] ==> r == None && Contents() == []
      ensures old(Contents()) != [] ==> r == Some(old(Contents())[0]) && Contents() == old(Contents())[1..]
    {
      if head.Some? {
        r := head;
        head := None;
      } else if |queue| > 0 {
        r := Some(queue[0]);
        queue := queue[1..];
      } else {
        r := None;
      }
    }

    /** mpr_queue_push: past the head slot, whether it is filled or not. */
    method Push(x: T)
      modifies this
      ensures Contents() == old(Contents()) + [x]
    {
      queue := queue + [x];
    }

    /** mpr_queue_peek: moves the first element into the head slot. */
    method Peek() returns (r: Option<T>)
      modifies this
      ensures Contents() == old(Contents())
      ensures r == if |Contents()| > 0 then Some(Contents()[0]) else None
    {
      if head.None? && |queue| > 0 {
        head := Some(queue[0]);
        queue := queue[1..];
      }
      r := head;
    }
  }
}
