/** The registry of live turns, and one live turn with its subscribers.

    The registry's two functions move the registry of TurnProtocol; a live turn in place goes through the
    states of LiveFrames, an append through two of them. */
module LiveTurns {
  import LiveFrames

  type Chat = string

  /** `start` displaces whatever entry the chat had. */
  function Registered<T>(registry: map<Chat, T>, chat: Chat, turn: T): map<Chat, T> {
    registry[chat := turn]
  }

  /** The reaper removes an entry only while it is still this very turn. */
  function Unregistered<T(==)>(registry: map<Chat, T>, chat: Chat, turn: T): map<Chat, T> {
    if chat in registry && registry[chat] == turn then registry - {chat} else registry
  }

  class LiveTurn {
    const chat: Chat
    const request: string
    const messageId: string
    var frames: seq<LiveFrames.Frame>
    var done: bool
    var subscribers: map<LiveFrames.SubId, LiveFrames.Subscriber>
    ghost var notices: nat

    constructor (chat: Chat, request: string, messageId: string)
      ensures this.chat == chat && this.request == request && this.messageId == messageId
      ensures View() == LiveFrames.INIT
    {
      this.chat, this.request, this.messageId := chat, request, messageId;
      frames, done, subscribers, notices := [], false, map[], 0;
    }

    ghost function View(): LiveFrames.State
      reads this
    {
      LiveFrames.State(frames, done, notices, subscribers)
    }

    /** The first half of `append`. */
    method AddFrame(data: LiveFrames.Frame)
      modifies this`frames, this`notices
      ensures View() == LiveFrames.Added(old(View()), data)
    {
      frames := frames + [data];
      notices := notices + 1;
    }

    /** The first half of `finish`. */
    method MarkDone()
      modifies this`done, this`notices
      ensures View() == LiveFrames.Marked(old(View()))
    {
      done := true;
      notices := notices + 1;
    }

    /** `notify_all`: every sleeper is woken, nobody else is touched. */
    method NotifyAll()
      requires notices > 0
      modifies this`subscribers, this`notices
      ensures View() == LiveFrames.Announced(old(View()))
    {
      var todo := subscribers.Keys;
      while todo != {}
        invariant todo <= subscribers.Keys == old(subscribers).Keys
        invariant forall k :: k in subscribers ==>
          subscribers[k] == if k in todo then old(subscribers)[k] else LiveFrames.Awakened(old(subscribers)[k])
        invariant notices == old(notices)
        decreases |todo|
      {
        var k :| k in todo;
        todo := todo - {k};
        if subscribers[k].phase.Asleep? {
          subscribers := subscribers[k := subscribers[k].(phase := LiveFrames.Woken)];
        }
      }
      notices := notices - 1;
    }

    method Subscribe(k: LiveFrames.SubId)
      requires k !in subscribers
      modifies this`subscribers
      ensures View() == LiveFrames.Next(old(View()), LiveFrames.Subscribe(k))
    {
      subscribers := subscribers[k := LiveFrames.Subscriber(0, [], LiveFrames.Emitting)];
    }

    /** One scheduled stretch of the generator: it yields a frame, returns, goes for the lock, or under
        the lock looks once more and sleeps or goes on. */
    method Resume(k: LiveFrames.SubId)
      requires k in subscribers && LiveFrames.Active(subscribers[k].phase)
      modifies this`subscribers
      ensures View() == LiveFrames.Next(old(View()), LiveFrames.Run(k))
    {
      var x := subscribers[k];
      if x.phase.Emitting? {
        if x.cursor < |frames| {
          x := x.(output := x.output + [frames[x.cursor]]);
          x := x.(cursor := x.cursor + 1);
        } else if done {
          x := x.(phase := LiveFrames.Terminated);
        } else {
          x := x.(phase := LiveFrames.WantsLock);
        }
      } else if done || |frames| > x.cursor {
        x := x.(phase := LiveFrames.Emitting);
      } else {
        x := x.(phase := LiveFrames.Asleep);
      }
      subscribers := subscribers[k := x];
    }
  }

  class LiveTurns {
    var turns: map<Chat, LiveTurn>

    /** Every entry is filed under its own chat. */
    ghost predicate Valid()
      reads this
    {
      forall c :: c in turns ==> turns[c].chat == c
    }

    constructor ()
      ensures Valid() && turns == map[]
    {
      turns := map[];
    }

    method Start(chat: Chat, request: string, messageId: string) returns (live: LiveTurn)
      requires Valid()
      modifies this
      ensures Valid() && fresh(live) && turns == Registered(old(turns), chat, live)
      ensures live.chat == chat && live.request == request && live.messageId == messageId
      ensures live.View() == LiveFrames.INIT
    {
      live := new LiveTurn(chat, request, messageId);
      turns := turns[chat := live];
    }

    /** `append`, when no cancellation lands between its two halves. */
    method Append(live: LiveTurn, data: LiveFrames.Frame)
      modifies live
      ensures live.View() == LiveFrames.Announced(LiveFrames.Added(old(live.View()), data))
    {
      live.AddFrame(data);
      live.NotifyAll();
    }

    method Finish(live: LiveTurn)
      modifies live
      ensures live.View() == LiveFrames.Announced(LiveFrames.Marked(old(live.View())))
    {
      live.MarkDone();
      live.NotifyAll();
    }

    method Reap(live: LiveTurn)
      requires Valid()
      modifies this
      ensures Valid() && turns == Unregistered(old(turns), live.chat, live)
    {
      if live.chat in turns && turns[live.chat] == live {
        turns := turns - {live.chat};
      }
    }
  }
}
