/** One turn in flight per chat: the set of held chats. TurnProtocol moves its lock set by the two
    functions that the methods here are proved against. */
module TurnLocks {
  type Chat = string

  predicate Grants(held: set<Chat>, chat: Chat) {
    chat !in held
  }

  function Acquired(held: set<Chat>, chat: Chat): set<Chat> {
    held + {chat}
  }

  /** Releasing a chat that is not held changes nothing. */
  function Freed(held: set<Chat>, chat: Chat): set<Chat> {
    held - {chat}
  }

  class TurnLocks {
    var held: set<Chat>

    constructor ()
      ensures held == {}
    {
      held := {};
    }

    method TryAcquire(chat: Chat) returns (acquired: bool)
      modifies this
      ensures acquired <==> Grants(old(held), chat)
      ensures held == if acquired then Acquired(old(held), chat) else old(held)
    {
      if chat in held {
        return false;
      }
      held := held + {chat};
      return true;
    }

    method Release(chat: Chat)
      modifies this
      ensures held == Freed(old(held), chat)
    {
      if chat in held {
        held := held - {chat};
      }
    }
  }
}
