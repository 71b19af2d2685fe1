/** Where a job object is: who still has a pointer to it and will act on it. */
module Hands {
  import opened Lists

  datatype Place = AtSubmit(p: nat) | InQueue | AtWorker(w: nat) | Nowhere

  /** A bounded queue holds each of its jobs once, and exactly those said to be in it. */
  ghost predicate QueuePlaced(queue: seq<nat>, capacity: nat, place: map<nat, Place>)
  {
    && |queue| <= capacity
    && NoRepeats(queue)
    && (forall j :: j in queue <==> j in place && place[j] == InQueue)
  }

  /** Moving a job between places the queue has nothing to do with. */
  lemma QueueUnmoved(queue: seq<nat>, capacity: nat, place: map<nat, Place>, j: nat, to: Place)
    requires QueuePlaced(queue, capacity, place) && j !in queue && to != InQueue
    ensures QueuePlaced(queue, capacity, place[j := to])
  {
  }

  lemma PushKeepsQueue(queue: seq<nat>, capacity: nat, place: map<nat, Place>, j: nat)
    requires QueuePlaced(queue, capacity, place) && j !in queue && |queue| < capacity
    ensures QueuePlaced(queue + [j], capacity, place[j := InQueue])
  {
  }

  lemma PopKeepsQueue(queue: seq<nat>, capacity: nat, place: map<nat, Place>, to: Place)
    requires QueuePlaced(queue, capacity, place) && queue != [] && to != InQueue
    ensures QueuePlaced(queue[1..], capacity, place[queue[0] := to])
  {
  }
}
