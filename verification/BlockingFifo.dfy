/** The two blocking queues of the program: the pool of accepted connections and the message queue.
    Each method is what happens between taking and giving up the mutex of its object; a wait that
    blocks is the answer `Blocks`, and `notified` counts the calls of `notify_one`. */
module BlockingFifo {

  datatype Popped<T> = Blocks | Popped(value: T)

  function PopSection<T>(queue: seq<T>): (Popped<T>, seq<T>) {
    if queue == [] then (Blocks, queue) else (Popped(queue[0]), queue[1..])
  }

  class ConnectionPool<T> {
    var connectionPool: seq<T>
    ghost var notified: nat

    constructor ()
      ensures connectionPool == [] && notified == 0
    {
      connectionPool, notified := [], 0;
    }

    method AddConnection(connection: T)
      modifies this
      ensures connectionPool == old(connectionPool) + [connection] && notified == old(notified) + 1
    {
      connectionPool := connectionPool + [connection];
      notified := notified + 1;
    }

    method GetConnection() returns (popped: Popped<T>)
      modifies this`connectionPool
      ensures (popped, connectionPool) == old(PopSection(connectionPool))
      ensures popped == Blocks <==> old(connectionPool) == []
      ensures popped.Popped? ==> old(connectionPool) == [popped.value] + connectionPool
    {
      if |connectionPool| == 0 {
        return Blocks;
      }
      var connection := connectionPool[0];
      connectionPool := connectionPool[1..];
      return Popped(connection);
    }
  }

  class MessageQueue<T> {
    var queue: seq<T>
    ghost var notified: nat

    constructor ()
      ensures queue == [] && notified == 0
    {
      queue, notified := [], 0;
    }

    method Push(message: T)
      modifies this
      ensures queue == old(queue) + [message] && notified == old(notified) + 1
    {
      queue := queue + [message];
      notified := notified + 1;
    }

    method Pop() returns (popped: Popped<T>)
      modifies this`queue
      ensures (popped, queue) == old(PopSection(queue))
      ensures popped == Blocks <==> old(queue) == []
      ensures popped.Popped? ==> old(queue) == [popped.value] + queue
    {
      if |queue| == 0 {
        return Blocks;
      }
      var message := queue[0];
      queue := queue[1..];
      return Popped(message);
    }

    method Empty() returns (empty: bool)
      ensures empty <==> queue == []
    {
      return |queue| == 0;
    }
  }
}
