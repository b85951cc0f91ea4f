/** The conversation and index actors as objects whose handlers update their fields. */
module ChatHistoryActors {
  import opened Text
  import opened ChatHistory

  /** `TrimMessages`: the oldest messages are removed one by one. */
  method TrimMessages(meta: Meta, messages: seq<Message>) returns (trimmedMeta: Meta, trimmed: seq<Message>)
    ensures Conversation(Some(trimmedMeta), trimmed) == Replaced(meta, messages)
  {
    trimmedMeta, trimmed := meta, messages;
    if |messages| > MAX_MESSAGES {
      var excess := |messages| - MAX_MESSAGES;
      for i := 0 to excess
        invariant trimmed == messages[i..]
      {
        trimmed := trimmed[1..];
      }
      trimmedMeta := meta.(count := |trimmed|);
    }
  }

  class ChatConversationGAgent {
    var meta: Option<Meta>
    var messages: seq<Message>

    /** What has been sent to index actors. */
    var sent: seq<Envelope>

    function Model(): Conversation
      reads this
    {
      Conversation(meta, messages)
    }

    constructor ()
      ensures Model() == EMPTY && sent == []
    {
      meta, messages, sent := None, [], [];
    }

    method HandleMessagesReplaced(scope: string, newMeta: Option<Meta>, newMessages: seq<Message>)
      modifies this
      ensures (Model(), sent) ==
        var (next, notices) := HandleReplaced(old(Model()), scope, newMeta, newMessages); (next, old(sent) + notices)
    {
      if newMeta.None? {
        assert sent + [] == sent;
        return;
      }
      var trimmedMeta, trimmed := TrimMessages(newMeta.value, newMessages);
      meta, messages := Some(trimmedMeta), trimmed;
      if !IsBlank(scope) {
        sent := sent + [Envelope(scope, Upserted(trimmedMeta.(count := |messages|)))];
      } else {
        assert sent + [] == sent;
      }
    }

    method HandleConversationDeleted(scope: string, id: string)
      modifies this
      ensures (Model(), sent) == var (next, notices) := HandleDeleted(old(Model()), scope, id); (next, old(sent) + notices)
    {
      if IsBlank(id) || (meta.None? && |messages| == 0) {
        assert sent + [] == sent;
        return;
      }
      meta, messages := None, [];
      if !IsBlank(scope) {
        sent := sent + [Envelope(scope, Removed(id))];
      } else {
        assert sent + [] == sent;
      }
    }
  }

  class ChatHistoryIndexGAgent {
    var conversations: seq<Meta>

    constructor ()
      ensures conversations == []
    {
      conversations := [];
    }

    /** The first entry with this id. */
    method Find(id: string) returns (at: Option<nat>)
      ensures at == IndexOf(conversations, id)
    {
      for i := 0 to |conversations|
        invariant IndexOf(conversations, id) ==
          var rest := IndexOf(conversations[i..], id); if rest.None? then None else Some(rest.value + i)
      {
        if conversations[i].id == id {
          return Some(i);
        }
        assert conversations[i..][1..] == conversations[i + 1..];
      }
      return None;
    }

    /** The entry for this id, if there is one, is taken out. */
    method RemoveFirst(id: string)
      modifies this
      ensures conversations == Without(old(conversations), id)
    {
      var existing := Find(id);
      if existing.Some? {
        conversations := conversations[..existing.value] + conversations[existing.value + 1..];
      }
    }

    method HandleConversationUpserted(meta: Option<Meta>)
      modifies this
      ensures conversations == if meta.None? then old(conversations) else HandleNotice(old(conversations), Upserted(meta.value))
    {
      if meta.None? || IsBlank(meta.value.id) {
        return;
      }
      RemoveFirst(meta.value.id);
      conversations := conversations + [meta.value];
    }

    method HandleConversationRemoved(id: string)
      modifies this
      ensures conversations == HandleNotice(old(conversations), Removed(id))
    {
      if IsBlank(id) {
        return;
      }
      var existing := Find(id);
      if existing.None? {
        return;
      }
      RemoveFirst(id);
    }
  }
}
