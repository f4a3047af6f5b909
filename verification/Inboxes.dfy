/** The inboxes through which the threads talk to each other. */
module Inboxes {

  datatype Msg =
    | Noop | Terminate | MotionOn | MotionOff | TimerTickMessage
    | DisplayBrightHigh | DisplayBrightLow
    | DisplayModeNothing | DisplayModeBasicClock | DisplayModeMessage

  /** The message count has 32 bits. */
  function Wrapped(count: int): nat { count % 0x1_0000_0000 }

  lemma OneMore(count: nat)
    ensures Wrapped(Wrapped(count) + 1) == Wrapped(count + 1)
  {
  }

  lemma OneLess(count: nat)
    ensures Wrapped(Wrapped(count) - 1) == Wrapped(count - 1)
  {
  }

  class Inbox {
    var msgs: seq<Msg>
    var msgCount: nat

    ghost predicate Valid()
      reads this
    {
      msgCount == Wrapped(|msgs|)
    }

    constructor ()
      ensures Valid() && msgs == []
    {
      msgs, msgCount := [], 0;
    }

    method AddMessage(msg: Msg)
      requires Valid()
      modifies this
      ensures Valid() && msgs == old(msgs) + [msg]
    {
      OneMore(|msgs|);
      hide Wrapped;
      msgs := msgs + [msg];
      msgCount := Wrapped(msgCount + 1);
    }

    /** The part of waitForMessage that runs once there is a message. */
    method TakeMessage() returns (msg: Msg)
      requires Valid() && msgs != []
      modifies this
      ensures Valid() && old(msgs) == [msg] + msgs
    {
      OneLess(|msgs|);
      hide Wrapped;
      msg := msgs[0];
      msgs := msgs[1..];
      msgCount := Wrapped(msgCount - 1);
    }

    method GetMessage() returns (got: bool, msg: Msg)
      requires Valid()
      modifies this
      ensures Valid() && got == (old(msgs) != [])
      ensures if got then old(msgs) == [msg] + msgs else msgs == old(msgs)
    {
      if msgs == [] {
        return false, Noop;
      }
      got := true;
      msg := TakeMessage();
    }

    method Clear()
      modifies this
      ensures Valid() && msgs == []
    {
      msgs, msgCount := [], 0;
    }
  }

  class InboxRegistry {
    var inboxes: map<nat, Inbox>

    constructor ()
      ensures Valid() && inboxes == map[]
    {
      inboxes := map[];
    }

    /** Every thread has an inbox of its own. */
    ghost predicate Valid()
      reads this, inboxes.Values
    {
      && (forall t :: t in inboxes ==> inboxes[t].Valid())
      && (forall t, u :: t in inboxes && u in inboxes && t != u ==> inboxes[t] != inboxes[u])
    }

    /** The same inbox every time, made on the first asking. */
    method GetInbox(threadId: nat) returns (inbox: Inbox)
      requires Valid()
      modifies this
      ensures Valid() && threadId in inboxes && inbox == inboxes[threadId]
      ensures threadId in old(inboxes) ==> inboxes == old(inboxes)
      ensures threadId !in old(inboxes) ==> inboxes == old(inboxes)[threadId := inbox] && fresh(inbox) && inbox.msgs == []
    {
      if threadId !in inboxes {
        var made := new Inbox();
        assert forall t :: t in inboxes ==> inboxes[t] != made;
        inboxes := inboxes[threadId := made];
      }
      inbox := inboxes[threadId];
    }

    /** One copy to every inbox that exists, except the sender's; the registry yields them
        in any order. */
    method Broadcast(msg: Msg, from: nat)
      requires Valid()
      modifies inboxes.Values
      ensures Valid()
      ensures forall t :: t in inboxes ==> inboxes[t].msgs == old(inboxes[t].msgs) + (if t != from then [msg] else [])
    {
      var todo: set<nat> := inboxes.Keys;
      while todo != {}
        invariant todo <= inboxes.Keys && Valid()
        invariant forall t :: t in todo ==> inboxes[t].msgs == old(inboxes[t].msgs)
        invariant forall t :: t in inboxes && t !in todo ==>
                    inboxes[t].msgs == old(inboxes[t].msgs) + (if t != from then [msg] else [])
        decreases todo
      {
        var t :| t in todo;
        todo := todo - {t};
        if t != from {
          inboxes[t].AddMessage(msg);
        }
      }
    }
  }
}
