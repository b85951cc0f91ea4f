/** Conversations and the index that lists them: two kinds of actor that agree through messages. */
module ChatHistory {
  import opened Text

  const MAX_MESSAGES := 500

  /** Actor ids and messages are only ever compared, so numbers stand for them. */
  type ActorId = nat
  type Message = nat

  /** `title` stands for what a conversation's metadata says besides its id and message count. */
  datatype Meta = Meta(id: string, title: string, count: int)

  datatype Conversation = Conversation(meta: Option<Meta>, messages: seq<Message>)

  const EMPTY := Conversation(None, [])

  datatype Notice = Upserted(meta: Meta) | Removed(id: string)

  /** A message on its way from a conversation to the index of a scope. */
  datatype Envelope = Envelope(scope: string, notice: Notice)

  // ---- The conversation actor ----

  /** The newest messages, as many as are kept. */
  function Newest(messages: seq<Message>): seq<Message> {
    if |messages| <= MAX_MESSAGES then messages else messages[|messages| - MAX_MESSAGES..]
  }

  function Replaced(meta: Meta, messages: seq<Message>): Conversation {
    Conversation(
      Some(if |messages| <= MAX_MESSAGES then meta else meta.(count := MAX_MESSAGES)),
      Newest(messages))
  }

  /** What the index should say about a conversation. */
  function Listing(c: Conversation): Option<Meta> {
    if c.meta.None? then None else Some(c.meta.value.(count := |c.messages|))
  }

  /** The new state and what is sent when messages are replaced. */
  function HandleReplaced(c: Conversation, scope: string, meta: Option<Meta>, messages: seq<Message>): (Conversation, seq<Envelope>) {
    if meta.None? then (c, [])
    else
      var next := Replaced(meta.value, messages);
      (next, if IsBlank(scope) then [] else [Envelope(scope, Upserted(Listing(next).value))])
  }

  function HandleDeleted(c: Conversation, scope: string, id: string): (Conversation, seq<Envelope>) {
    if IsBlank(id) || c == EMPTY then (c, [])
    else (EMPTY, if IsBlank(scope) then [] else [Envelope(scope, Removed(id))])
  }

  // ---- The index actor ----

  /** The position of the first entry with this id. */
  function IndexOf(entries: seq<Meta>, id: string): (r: Option<nat>)
    ensures r.Some? ==> r.value < |entries| && entries[r.value].id == id
  {
    if entries == [] then None
    else if entries[0].id == id then Some(0)
    else
      var rest := IndexOf(entries[1..], id);
      if rest.None? then None else Some(rest.value + 1)
  }

  function Without(entries: seq<Meta>, id: string): seq<Meta> {
    var at := IndexOf(entries, id);
    if at.None? then entries else entries[..at.value] + entries[at.value + 1..]
  }

  function HandleNotice(entries: seq<Meta>, notice: Notice): seq<Meta> {
    match notice
    case Upserted(meta) => if IsBlank(meta.id) then entries else Without(entries, meta.id) + [meta]
    case Removed(id) => if IsBlank(id) then entries else Without(entries, id)
  }

  function Lookup(entries: seq<Meta>, id: string): Option<Meta> {
    var at := IndexOf(entries, id);
    if at.None? then None else Some(entries[at.value])
  }

  ghost predicate UniqueIds(entries: seq<Meta>) {
    forall i, j :: 0 <= i < j < |entries| ==> entries[i].id != entries[j].id
  }

  lemma {:induction false} IndexOfIsFirst(entries: seq<Meta>, id: string)
    ensures var r := IndexOf(entries, id);
      forall j :: 0 <= j < (if r.Some? then r.value else |entries|) ==> entries[j].id != id
  {
    if entries != [] && entries[0].id != id {
      IndexOfIsFirst(entries[1..], id);
      var r := IndexOf(entries, id);
      forall j | 0 <= j < (if r.Some? then r.value else |entries|)
        ensures entries[j].id != id
      {
        if j > 0 {
          assert entries[1..][j - 1] == entries[j];
        }
      }
    }
  }

  lemma LookupIs(entries: seq<Meta>, k: nat)
    requires UniqueIds(entries) && k < |entries|
    ensures IndexOf(entries, entries[k].id) == Some(k) && Lookup(entries, entries[k].id) == Some(entries[k])
  {
    IndexOfIsFirst(entries, entries[k].id);
  }

  lemma WithoutIs(entries: seq<Meta>, id: string)
    requires UniqueIds(entries)
    ensures var r := Without(entries, id);
      && UniqueIds(r)
      && forall other :: Lookup(r, other) == if other == id then None else Lookup(entries, other)
  {
    var r := Without(entries, id);
    var at := IndexOf(entries, id);
    IndexOfIsFirst(entries, id);
    if at.Some? {
      forall j | 0 <= j < |r|
        ensures r[j] == entries[if j < at.value then j else j + 1] && r[j].id != id
      {
      }
    }
    forall other
      ensures Lookup(r, other) == if other == id then None else Lookup(entries, other)
    {
      var found := IndexOf(entries, other);
      IndexOfIsFirst(entries, other);
      IndexOfIsFirst(r, other);
      if at.Some? && found.Some? && other != id {
        var k := if found.value < at.value then found.value else found.value - 1;
        assert r[k] == entries[found.value];
        LookupIs(r, k);
      }
    }
  }

  /** Handling a notice changes what is listed under its own id, and nothing else. */
  lemma NoticeIs(entries: seq<Meta>, notice: Notice)
    requires UniqueIds(entries)
    ensures var r := HandleNotice(entries, notice);
      && UniqueIds(r)
      && forall id :: Lookup(r, id) == if notice.Upserted? && id == notice.meta.id && !IsBlank(id) then Some(notice.meta)
                                       else if notice.Removed? && id == notice.id && !IsBlank(id) then None
                                       else Lookup(entries, id)
  {
    match notice
    case Removed(id) => WithoutIs(entries, id);
    case Upserted(meta) =>
      if !IsBlank(meta.id) {
        WithoutIs(entries, meta.id);
        var rest := Without(entries, meta.id);
        var r := rest + [meta];
        forall j | 0 <= j < |rest|
          ensures rest[j].id != meta.id
        {
          LookupIs(rest, j);
        }
        assert r[|rest|] == meta;
        forall id
          ensures Lookup(r, id) == if id == meta.id then Some(meta) else Lookup(entries, id)
        {
          if id == meta.id {
            LookupIs(r, |rest|);
          } else if IndexOf(rest, id).Some? {
            var k := IndexOf(rest, id).value;
            assert r[k] == rest[k];
            LookupIs(r, k);
          } else {
            IndexOfIsFirst(rest, id);
          }
        }
      }
  }

  // ---- The system ----

  /** Where a conversation belongs: the scope and id that its commands carry. */
  datatype Owner = Owner(scope: string, id: string)

  datatype World = World(
    conversations: map<ActorId, Conversation>,
    queues: map<ActorId, seq<Envelope>>,
    indexes: map<string, seq<Meta>>,
    ghost submitted: map<ActorId, seq<Message>>)

  const START := World(map[], map[], map[], map[])

  datatype Action =
    | Replace(actor: ActorId, scope: string, meta: Option<Meta>, messages: seq<Message>)
    | Delete(actor: ActorId, scope: string, id: string)
    | Deliver(actor: ActorId)

  function ConversationOf(w: World, actor: ActorId): Conversation {
    if actor in w.conversations then w.conversations[actor] else EMPTY
  }

  function QueueOf(w: World, actor: ActorId): seq<Envelope> {
    if actor in w.queues then w.queues[actor] else []
  }

  function EntriesOf(w: World, scope: string): seq<Meta> {
    if scope in w.indexes then w.indexes[scope] else []
  }

  ghost function SubmittedTo(w: World, actor: ActorId): seq<Message> {
    if actor in w.submitted then w.submitted[actor] else []
  }

  function Commit(w: World, actor: ActorId, handled: (Conversation, seq<Envelope>)): World {
    w.(conversations := w.conversations[actor := handled.0],
       queues := w.queues[actor := QueueOf(w, actor) + handled.1])
  }

  ghost function Step(w: World, a: Action): World {
    match a
    case Replace(actor, scope, meta, messages) =>
      Commit(w, actor, HandleReplaced(ConversationOf(w, actor), scope, meta, messages))
        .(submitted := if meta.None? then w.submitted else w.submitted[actor := messages])
    case Delete(actor, scope, id) =>
      Commit(w, actor, HandleDeleted(ConversationOf(w, actor), scope, id))
        .(submitted := if IsBlank(id) then w.submitted else w.submitted[actor := []])
    case Deliver(actor) =>
      var queue := QueueOf(w, actor);
      if queue == [] then w
      else
        var e := queue[0];
        w.(queues := w.queues[actor := queue[1..]],
           indexes := w.indexes[e.scope := HandleNotice(EntriesOf(w, e.scope), e.notice)])
  }

  ghost function Run(w: World, actions: seq<Action>): World
    decreases |actions|
  {
    if actions == [] then w else Run(Step(w, actions[0]), actions[1..])
  }

  // ---- Agreement ----

  /** Each conversation has an owner with a scope and an id, and no two share both. */
  ghost predicate Owned(owners: map<ActorId, Owner>) {
    && (forall a :: a in owners ==> !IsBlank(owners[a].scope) && !IsBlank(owners[a].id))
    && forall a, b :: a in owners && b in owners && owners[a] == owners[b] ==> a == b
  }

  /** Every command to a conversation carries the scope and the id of its owner. */
  ghost predicate Stable(owners: map<ActorId, Owner>, a: Action) {
    match a
    case Replace(actor, scope, meta, _) =>
      actor in owners && scope == owners[actor].scope && (meta.Some? ==> meta.value.id == owners[actor].id)
    case Delete(actor, scope, id) => actor in owners && scope == owners[actor].scope && id == owners[actor].id
    case Deliver(actor) => actor in owners
  }

  /** What will be listed once these notices have been handled. */
  function After(listed: Option<Meta>, queue: seq<Envelope>): Option<Meta> {
    if queue == [] then listed
    else
      var last := queue[|queue| - 1].notice;
      if last.Upserted? then Some(last.meta) else None
  }

  /** The notices of this queue are about this owner. */
  ghost predicate Addressed(queue: seq<Envelope>, owner: Owner) {
    forall i :: 0 <= i < |queue| ==>
      queue[i].scope == owner.scope && SubjectOf(queue[i].notice) == owner.id
  }

  /** One conversation, the notices it has in flight, and what is listed about it. */
  ghost predicate Agrees(listed: Option<Meta>, queue: seq<Envelope>, c: Conversation, submitted: seq<Message>, owner: Owner) {
    && Addressed(queue, owner)
    && After(listed, queue) == Listing(c)
    && (c.meta.None? ==> c == EMPTY)
    && c.messages == Newest(submitted)
  }

  ghost predicate ConversationAgrees(w: World, actor: ActorId, owner: Owner) {
    Agrees(Lookup(EntriesOf(w, owner.scope), owner.id), QueueOf(w, actor), ConversationOf(w, actor), SubmittedTo(w, actor), owner)
  }

  /** Every entry of every index is about a conversation of that scope. */
  ghost predicate NothingElseListed(w: World, owners: map<ActorId, Owner>) {
    forall scope, id :: Lookup(EntriesOf(w, scope), id).Some? ==> IsOwner(owners, Owner(scope, id))
  }

  ghost predicate IsOwner(owners: map<ActorId, Owner>, owner: Owner) {
    exists a :: a in owners && owners[a] == owner
  }

  ghost predicate AllUnique(w: World) {
    forall scope :: UniqueIds(EntriesOf(w, scope))
  }

  ghost predicate AllAgree(w: World, owners: map<ActorId, Owner>) {
    forall a :: a in owners ==> ConversationAgrees(w, a, owners[a])
  }

  ghost predicate Inv(w: World, owners: map<ActorId, Owner>) {
    AllUnique(w) && AllAgree(w, owners) && NothingElseListed(w, owners)
  }

  lemma SendOne(listed: Option<Meta>, queue: seq<Envelope>, e: Envelope)
    ensures After(listed, queue + [e]) == if e.notice.Upserted? then Some(e.notice.meta) else None
  {
  }

  lemma ReplaceAgrees(listed: Option<Meta>, queue: seq<Envelope>, c: Conversation, submitted: seq<Message>, owner: Owner,
                      meta: Option<Meta>, messages: seq<Message>)
    requires Agrees(listed, queue, c, submitted, owner) && !IsBlank(owner.scope) && (meta.Some? ==> meta.value.id == owner.id)
    ensures var (next, sent) := HandleReplaced(c, owner.scope, meta, messages);
      Agrees(listed, queue + sent, next, if meta.Some? then messages else submitted, owner)
  {
    if meta.Some? {
      var next := Replaced(meta.value, messages);
      SendOne(listed, queue, Envelope(owner.scope, Upserted(Listing(next).value)));
    } else {
      assert queue + [] == queue;
    }
  }

  lemma DeleteAgrees(listed: Option<Meta>, queue: seq<Envelope>, c: Conversation, submitted: seq<Message>, owner: Owner)
    requires Agrees(listed, queue, c, submitted, owner) && !IsBlank(owner.scope) && !IsBlank(owner.id)
    ensures var (next, sent) := HandleDeleted(c, owner.scope, owner.id); Agrees(listed, queue + sent, next, [], owner)
  {
    if c == EMPTY {
      assert queue + [] == queue;
    } else {
      SendOne(listed, queue, Envelope(owner.scope, Removed(owner.id)));
    }
  }

  lemma DeliverAgrees(entries: seq<Meta>, queue: seq<Envelope>, c: Conversation, submitted: seq<Message>, owner: Owner)
    requires UniqueIds(entries) && queue != [] && !IsBlank(owner.id)
    requires Agrees(Lookup(entries, owner.id), queue, c, submitted, owner)
    ensures Agrees(Lookup(HandleNotice(entries, queue[0].notice), owner.id), queue[1..], c, submitted, owner)
  {
    NoticeIs(entries, queue[0].notice);
  }

  /** A command to one conversation leaves the others, and every index, as they are. */
  lemma CommitKeepsOthers(w: World, w': World, actor: ActorId, owners: map<ActorId, Owner>)
    requires AllAgree(w, owners) && actor in owners && w'.indexes == w.indexes
    requires forall a :: a != actor ==> QueueOf(w', a) == QueueOf(w, a) && ConversationOf(w', a) == ConversationOf(w, a)
                                        && SubmittedTo(w', a) == SubmittedTo(w, a)
    requires ConversationAgrees(w', actor, owners[actor])
    ensures AllAgree(w', owners)
  {
    forall a | a in owners
      ensures ConversationAgrees(w', a, owners[a])
    {
      assert ConversationAgrees(w, a, owners[a]);
    }
  }

  /** Agreement, put together from its parts. */
  lemma AgreesInWorld(w: World, actor: ActorId, listed: Option<Meta>, queue: seq<Envelope>, c: Conversation,
                      submitted: seq<Message>, owner: Owner)
    requires Agrees(listed, queue, c, submitted, owner)
    requires Lookup(EntriesOf(w, owner.scope), owner.id) == listed && QueueOf(w, actor) == queue
    requires ConversationOf(w, actor) == c && SubmittedTo(w, actor) == submitted
    ensures ConversationAgrees(w, actor, owner)
  {
  }

  lemma AgreementInWorld(w: World, owners: map<ActorId, Owner>, actor: ActorId)
    requires AllAgree(w, owners) && actor in owners
    ensures Agrees(Lookup(EntriesOf(w, owners[actor].scope), owners[actor].id), QueueOf(w, actor), ConversationOf(w, actor),
                   SubmittedTo(w, actor), owners[actor])
  {
    assert ConversationAgrees(w, actor, owners[actor]);
  }

  lemma ReplaceOwnAgreement(w: World, owner: Owner, a: Action)
    requires a.Replace? && a.scope == owner.scope && !IsBlank(owner.scope) && (a.meta.Some? ==> a.meta.value.id == owner.id)
    requires Agrees(Lookup(EntriesOf(w, owner.scope), owner.id), QueueOf(w, a.actor), ConversationOf(w, a.actor),
                    SubmittedTo(w, a.actor), owner)
    ensures ConversationAgrees(Step(w, a), a.actor, owner)
  {
    var listed := Lookup(EntriesOf(w, owner.scope), owner.id);
    var (queue, c, submitted) := (QueueOf(w, a.actor), ConversationOf(w, a.actor), SubmittedTo(w, a.actor));
    ReplaceAgrees(listed, queue, c, submitted, owner, a.meta, a.messages);
    ReplaceEffect(w, a.actor, a.scope, a.meta, a.messages);
    var (next, sent) := HandleReplaced(c, owner.scope, a.meta, a.messages);
    AgreesInWorld(Step(w, a), a.actor, listed, queue + sent, next, if a.meta.Some? then a.messages else submitted, owner);
  }

  lemma DeleteOwnAgreement(w: World, owner: Owner, actor: ActorId)
    requires !IsBlank(owner.scope) && !IsBlank(owner.id)
    requires Agrees(Lookup(EntriesOf(w, owner.scope), owner.id), QueueOf(w, actor), ConversationOf(w, actor),
                    SubmittedTo(w, actor), owner)
    ensures ConversationAgrees(Step(w, Delete(actor, owner.scope, owner.id)), actor, owner)
  {
    var listed := Lookup(EntriesOf(w, owner.scope), owner.id);
    var (queue, c, submitted) := (QueueOf(w, actor), ConversationOf(w, actor), SubmittedTo(w, actor));
    DeleteAgrees(listed, queue, c, submitted, owner);
    DeleteEffect(w, actor, owner.scope, owner.id);
    var (next, sent) := HandleDeleted(c, owner.scope, owner.id);
    AgreesInWorld(Step(w, Delete(actor, owner.scope, owner.id)), actor, listed, queue + sent, next, [], owner);
  }

  lemma CommandFrame(w: World, a: Action)
    requires !a.Deliver?
    ensures var w' := Step(w, a);
      && w'.indexes == w.indexes
      && forall b :: b != a.actor ==> QueueOf(w', b) == QueueOf(w, b) && ConversationOf(w', b) == ConversationOf(w, b)
                                      && SubmittedTo(w', b) == SubmittedTo(w, b)
  {
  }

  lemma ReplaceEffect(w: World, actor: ActorId, scope: string, meta: Option<Meta>, messages: seq<Message>)
    ensures var w' := Step(w, Replace(actor, scope, meta, messages));
      var (next, sent) := HandleReplaced(ConversationOf(w, actor), scope, meta, messages);
      && ConversationOf(w', actor) == next && QueueOf(w', actor) == QueueOf(w, actor) + sent
      && SubmittedTo(w', actor) == if meta.Some? then messages else SubmittedTo(w, actor)
  {
  }

  lemma DeleteEffect(w: World, actor: ActorId, scope: string, id: string)
    ensures var w' := Step(w, Delete(actor, scope, id));
      var (next, sent) := HandleDeleted(ConversationOf(w, actor), scope, id);
      && ConversationOf(w', actor) == next && QueueOf(w', actor) == QueueOf(w, actor) + sent
      && SubmittedTo(w', actor) == if IsBlank(id) then SubmittedTo(w, actor) else []
  {
  }

  lemma ReplaceKeepsAgreement(w: World, owners: map<ActorId, Owner>, a: Action)
    requires Owned(owners) && AllAgree(w, owners) && Stable(owners, a) && a.Replace?
    ensures AllAgree(Step(w, a), owners)
  {
    AgreementInWorld(w, owners, a.actor);
    ReplaceOwnAgreement(w, owners[a.actor], a);
    CommandFrame(w, a);
    CommitKeepsOthers(w, Step(w, a), a.actor, owners);
  }

  lemma DeleteKeepsAgreement(w: World, owners: map<ActorId, Owner>, a: Action)
    requires Owned(owners) && AllAgree(w, owners) && Stable(owners, a) && a.Delete?
    ensures AllAgree(Step(w, a), owners)
  {
    AgreementInWorld(w, owners, a.actor);
    DeleteOwnAgreement(w, owners[a.actor], a.actor);
    CommandFrame(w, a);
    CommitKeepsOthers(w, Step(w, a), a.actor, owners);
  }

  /** Indexes that did not change list what they listed. */
  lemma CommandKeepsIndexes(w: World, w': World, owners: map<ActorId, Owner>)
    requires w'.indexes == w.indexes && AllUnique(w) && NothingElseListed(w, owners)
    ensures AllUnique(w') && NothingElseListed(w', owners)
  {
    forall scope
      ensures EntriesOf(w', scope) == EntriesOf(w, scope)
    {
    }
    forall scope, id | Lookup(EntriesOf(w', scope), id).Some?
      ensures IsOwner(owners, Owner(scope, id))
    {
      assert Lookup(EntriesOf(w, scope), id).Some?;
    }
  }

  /** A delivery changes the index that it is addressed to, and the queue that it is taken from. */
  lemma DeliverEffect(w: World, actor: ActorId)
    requires QueueOf(w, actor) != []
    ensures var w' := Step(w, Deliver(actor)); var e := QueueOf(w, actor)[0];
      && QueueOf(w', actor) == QueueOf(w, actor)[1..]
      && (forall b :: b != actor ==> QueueOf(w', b) == QueueOf(w, b))
      && EntriesOf(w', e.scope) == HandleNotice(EntriesOf(w, e.scope), e.notice)
      && forall scope :: scope != e.scope ==> EntriesOf(w', scope) == EntriesOf(w, scope)
  {
  }

  lemma DeliverKeepsUnique(w: World, actor: ActorId)
    requires AllUnique(w) && QueueOf(w, actor) != []
    ensures AllUnique(Step(w, Deliver(actor)))
  {
    var e := QueueOf(w, actor)[0];
    DeliverEffect(w, actor);
    NoticeIs(EntriesOf(w, e.scope), e.notice);
    var w' := Step(w, Deliver(actor));
    forall scope
      ensures UniqueIds(EntriesOf(w', scope))
    {
      if scope != e.scope {
        assert EntriesOf(w', scope) == EntriesOf(w, scope);
      }
    }
  }

  function SubjectOf(notice: Notice): string {
    if notice.Upserted? then notice.meta.id else notice.id
  }

  /** A delivery changes what is listed about its own subject only. */
  lemma DeliverListing(w: World, actor: ActorId, scope: string, id: string)
    requires AllUnique(w) && QueueOf(w, actor) != []
    requires var e := QueueOf(w, actor)[0]; scope != e.scope || id != SubjectOf(e.notice)
    ensures Lookup(EntriesOf(Step(w, Deliver(actor)), scope), id) == Lookup(EntriesOf(w, scope), id)
  {
    var e := QueueOf(w, actor)[0];
    DeliverEffect(w, actor);
    NoticeIs(EntriesOf(w, e.scope), e.notice);
  }

  lemma DeliverOwnAgreement(w: World, owners: map<ActorId, Owner>, actor: ActorId)
    requires Owned(owners) && AllUnique(w) && actor in owners && ConversationAgrees(w, actor, owners[actor])
    requires QueueOf(w, actor) != []
    ensures ConversationAgrees(Step(w, Deliver(actor)), actor, owners[actor])
  {
    var owner := owners[actor];
    var (entries, queue) := (EntriesOf(w, owner.scope), QueueOf(w, actor));
    DeliverEffect(w, actor);
    DeliverAgrees(entries, queue, ConversationOf(w, actor), SubmittedTo(w, actor), owner);
    AgreesInWorld(Step(w, Deliver(actor)), actor, Lookup(HandleNotice(entries, queue[0].notice), owner.id), queue[1..],
                  ConversationOf(w, actor), SubmittedTo(w, actor), owner);
  }

  lemma DeliverOtherAgreement(w: World, owners: map<ActorId, Owner>, actor: ActorId, other: ActorId)
    requires Owned(owners) && AllUnique(w) && actor in owners && other in owners && other != actor
    requires ConversationAgrees(w, actor, owners[actor]) && ConversationAgrees(w, other, owners[other])
    requires QueueOf(w, actor) != []
    ensures ConversationAgrees(Step(w, Deliver(actor)), other, owners[other])
  {
    var (e, owner) := (QueueOf(w, actor)[0], owners[other]);
    DeliverEffect(w, actor);
    assert owners[actor] != owner;
    assert e.scope == owners[actor].scope && SubjectOf(e.notice) == owners[actor].id;
    DeliverListing(w, actor, owner.scope, owner.id);
  }

  lemma DeliverKeepsAgreement(w: World, owners: map<ActorId, Owner>, actor: ActorId)
    requires Owned(owners) && AllUnique(w) && AllAgree(w, owners) && actor in owners && QueueOf(w, actor) != []
    ensures AllAgree(Step(w, Deliver(actor)), owners)
  {
    assert ConversationAgrees(w, actor, owners[actor]);
    forall a | a in owners
      ensures ConversationAgrees(Step(w, Deliver(actor)), a, owners[a])
    {
      assert ConversationAgrees(w, a, owners[a]);
      if a == actor {
        DeliverOwnAgreement(w, owners, actor);
      } else {
        DeliverOtherAgreement(w, owners, actor, a);
      }
    }
  }

  lemma DeliverListsNothingElse(w: World, owners: map<ActorId, Owner>, actor: ActorId)
    requires AllUnique(w) && NothingElseListed(w, owners) && actor in owners && QueueOf(w, actor) != []
    requires ConversationAgrees(w, actor, owners[actor])
    ensures NothingElseListed(Step(w, Deliver(actor)), owners)
  {
    var (e, owner) := (QueueOf(w, actor)[0], owners[actor]);
    assert e.scope == owner.scope && SubjectOf(e.notice) == owner.id;
    forall scope, id | Lookup(EntriesOf(Step(w, Deliver(actor)), scope), id).Some?
      ensures IsOwner(owners, Owner(scope, id))
    {
      if scope == owner.scope && id == owner.id {
        assert owners[actor] == Owner(scope, id);
      } else {
        DeliverListing(w, actor, scope, id);
      }
    }
  }

  lemma StepKeepsInv(w: World, owners: map<ActorId, Owner>, a: Action)
    requires Owned(owners) && Inv(w, owners) && Stable(owners, a)
    ensures Inv(Step(w, a), owners)
  {
    match a
    case Replace(_, _, _, _) =>
      ReplaceKeepsAgreement(w, owners, a);
      CommandFrame(w, a);
      CommandKeepsIndexes(w, Step(w, a), owners);
    case Delete(_, _, _) =>
      DeleteKeepsAgreement(w, owners, a);
      CommandFrame(w, a);
      CommandKeepsIndexes(w, Step(w, a), owners);
    case Deliver(actor) =>
      if QueueOf(w, actor) != [] {
        assert ConversationAgrees(w, actor, owners[actor]);
        DeliverKeepsAgreement(w, owners, actor);
        DeliverKeepsUnique(w, actor);
        DeliverListsNothingElse(w, owners, actor);
      }
  }

  lemma {:induction false} RunKeepsInv(w: World, owners: map<ActorId, Owner>, actions: seq<Action>)
    requires Owned(owners) && Inv(w, owners) && forall a :: a in actions ==> Stable(owners, a)
    ensures Inv(Run(w, actions), owners)
    decreases |actions|
  {
    if actions != [] {
      assert actions[0] in actions && forall a :: a in actions[1..] ==> a in actions;
      StepKeepsInv(w, owners, actions[0]);
      RunKeepsInv(Step(w, actions[0]), owners, actions[1..]);
    }
  }

  lemma StartIsInv(owners: map<ActorId, Owner>)
    requires Owned(owners)
    ensures Inv(START, owners)
  {
  }

  /** A conversation of this scope that should be listed like this. */
  ghost predicate ShouldList(w: World, owners: map<ActorId, Owner>, scope: string, meta: Meta) {
    exists a :: a in owners && owners[a] == Owner(scope, meta.id) && Listing(ConversationOf(w, a)) == Some(meta)
  }

  /** The indexes list exactly the non-empty conversations, once each, with the number of messages they hold. */
  ghost predicate ListsExactly(w: World, owners: map<ActorId, Owner>) {
    && (forall scope :: UniqueIds(EntriesOf(w, scope)))
    && forall scope, meta :: meta in EntriesOf(w, scope) <==> ShouldList(w, owners, scope, meta)
  }

  lemma ListedIsOwned(w: World, owners: map<ActorId, Owner>, scope: string, meta: Meta)
    requires Inv(w, owners) && forall a :: a in owners ==> QueueOf(w, a) == []
    ensures meta in EntriesOf(w, scope) <==> ShouldList(w, owners, scope, meta)
  {
    var entries := EntriesOf(w, scope);
    if meta in entries {
      var k :| 0 <= k < |entries| && entries[k] == meta;
      LookupIs(entries, k);
      assert IsOwner(owners, Owner(scope, meta.id));
      var a :| a in owners && owners[a] == Owner(scope, meta.id);
      assert ConversationAgrees(w, a, owners[a]);
    }
    if ShouldList(w, owners, scope, meta) {
      var a :| a in owners && owners[a] == Owner(scope, meta.id) && Listing(ConversationOf(w, a)) == Some(meta);
      assert ConversationAgrees(w, a, owners[a]);
      assert Lookup(entries, meta.id) == Some(meta);
    }
  }

  /**
   After any run of commands and deliveries, in whatever order the conversations' messages were delivered: once
   nothing is in flight, each index lists exactly the non-empty conversations of its scope, once each, with the
   number of messages that they hold.
   */
  lemma AgreementAtRest(owners: map<ActorId, Owner>, actions: seq<Action>)
    requires Owned(owners) && forall a :: a in actions ==> Stable(owners, a)
    requires forall a :: a in owners ==> QueueOf(Run(START, actions), a) == []
    ensures ListsExactly(Run(START, actions), owners)
  {
    StartIsInv(owners);
    RunKeepsInv(START, owners, actions);
    var w := Run(START, actions);
    forall scope, meta
      ensures meta in EntriesOf(w, scope) <==> ShouldList(w, owners, scope, meta)
    {
      ListedIsOwned(w, owners, scope, meta);
    }
  }

  /** In every reachable state a conversation holds the newest of the messages last submitted, at most 500. */
  lemma HoldsTheNewest(owners: map<ActorId, Owner>, actions: seq<Action>, actor: ActorId)
    requires Owned(owners) && (forall a :: a in actions ==> Stable(owners, a)) && actor in owners
    ensures var w := Run(START, actions); var (held, all) := (ConversationOf(w, actor).messages, SubmittedTo(w, actor));
      IsNewest(held, all)
  {
    StartIsInv(owners);
    RunKeepsInv(START, owners, actions);
    NewestIsHeld(Run(START, actions), owners, actor);
  }

  /** The longest suffix that may be kept. */
  predicate IsNewest(held: seq<Message>, all: seq<Message>) {
    && |held| <= MAX_MESSAGES && |held| <= |all| && held == all[|all| - |held|..]
    && (|held| == |all| || |held| == MAX_MESSAGES)
  }

  lemma NewestIsHeld(w: World, owners: map<ActorId, Owner>, actor: ActorId)
    requires Inv(w, owners) && actor in owners
    ensures IsNewest(ConversationOf(w, actor).messages, SubmittedTo(w, actor))
  {
    assert ConversationAgrees(w, actor, owners[actor]);
    assert IsNewest(Newest(SubmittedTo(w, actor)), SubmittedTo(w, actor));
  }

  /**
   A delete that carries another scope or id empties the conversation all the same: what is listed then
   follows exactly when the delete carried the owner's, was ignored, or there was nothing to delete.
   */
  lemma DeleteAgreesExactly(listed: Option<Meta>, queue: seq<Envelope>, c: Conversation, submitted: seq<Message>, owner: Owner,
                            scope: string, id: string)
    requires Agrees(listed, queue, c, submitted, owner) && !IsBlank(owner.scope) && !IsBlank(owner.id) && !IsBlank(id)
    ensures var (next, sent) := HandleDeleted(c, scope, id);
      Agrees(listed, queue + sent, next, [], owner) <==> c == EMPTY || Owner(scope, id) == owner
  {
    if c == EMPTY || Owner(scope, id) == owner {
      DeleteAgrees(listed, queue, c, submitted, owner);
      assert queue + [] == queue;
    } else if IsBlank(scope) {
      assert queue + [] == queue;
    } else {
      var e := Envelope(scope, Removed(id));
      assert (queue + [e])[|queue|] == e;
    }
  }

  /** A command without a scope tells no index: it sends nothing. */
  lemma NoScopeNoNotice(w: World, a: Action, sender: ActorId)
    requires !a.Deliver? && IsBlank(a.scope)
    ensures QueueOf(Step(w, a), sender) == QueueOf(w, sender)
  {
    if sender == a.actor {
      assert QueueOf(w, sender) + [] == QueueOf(w, sender);
    }
  }

  /** A conversation's own metadata is what was submitted, with the number of messages kept if some were not. */
  lemma StoredMetadata(w: World, actor: ActorId, scope: string, meta: Meta, messages: seq<Message>)
    ensures var stored := ConversationOf(Step(w, Replace(actor, scope, Some(meta), messages)), actor).meta;
      stored == Some(Meta(meta.id, meta.title, if |messages| > 500 then 500 else meta.count))
  {
    ReplaceEffect(w, actor, scope, Some(meta), messages);
  }

  // ---- A delete that lost its scope ----

  /** Commands to the others carry their owners' scope and id; this conversation is only deleted, by anyone. */
  ghost predicate OnlyDeletes(owners: map<ActorId, Owner>, actor: ActorId, a: Action) {
    if a.Delete? && a.actor == actor then true
    else if a.Deliver? then a.actor in owners
    else a.actor != actor && Stable(owners, a)
  }

  /** The conversation is empty and silent, and the others send notices about themselves. */
  ghost predicate Silent(w: World, owners: map<ActorId, Owner>, actor: ActorId) {
    && AllUnique(w) && ConversationOf(w, actor) == EMPTY && QueueOf(w, actor) == []
    && forall b :: b in owners && b != actor ==> Addressed(QueueOf(w, b), owners[b])
  }

  lemma SentIsAddressed(queue: seq<Envelope>, c: Conversation, owner: Owner, a: Action)
    requires Addressed(queue, owner)
    requires a.Replace? ==> a.scope == owner.scope && (a.meta.Some? ==> a.meta.value.id == owner.id)
    requires a.Delete? ==> a.scope == owner.scope && a.id == owner.id
    ensures a.Replace? ==> Addressed(queue + HandleReplaced(c, a.scope, a.meta, a.messages).1, owner)
    ensures a.Delete? ==> Addressed(queue + HandleDeleted(c, a.scope, a.id).1, owner)
  {
  }

  lemma CommandStaysSilent(w: World, owners: map<ActorId, Owner>, actor: ActorId, a: Action)
    requires Silent(w, owners, actor) && OnlyDeletes(owners, actor, a) && !a.Deliver?
    ensures Silent(Step(w, a), owners, actor)
  {
    var w' := Step(w, a);
    CommandFrame(w, a);
    forall scope
      ensures UniqueIds(EntriesOf(w', scope))
    {
      assert EntriesOf(w', scope) == EntriesOf(w, scope);
    }
    forall b | b in owners && b != actor
      ensures Addressed(QueueOf(w', b), owners[b])
    {
      if b == a.actor {
        SentIsAddressed(QueueOf(w, b), ConversationOf(w, b), owners[b], a);
      }
    }
  }

  lemma DeliverStaysSilent(w: World, owners: map<ActorId, Owner>, actor: ActorId, sender: ActorId)
    requires Owned(owners) && Silent(w, owners, actor) && actor in owners && sender in owners
    ensures var w' := Step(w, Deliver(sender)); var owner := owners[actor];
      && Silent(w', owners, actor)
      && Lookup(EntriesOf(w', owner.scope), owner.id) == Lookup(EntriesOf(w, owner.scope), owner.id)
  {
    if QueueOf(w, sender) != [] {
      var w' := Step(w, Deliver(sender));
      DeliverEffect(w, sender);
      DeliverKeepsUnique(w, sender);
      assert Addressed(QueueOf(w, sender), owners[sender]) && owners[sender] != owners[actor];
      DeliverListing(w, sender, owners[actor].scope, owners[actor].id);
      assert ConversationOf(w', actor) == ConversationOf(w, actor);
      forall b | b in owners && b != actor
        ensures Addressed(QueueOf(w', b), owners[b])
      {
        assert Addressed(QueueOf(w, b), owners[b]);
      }
    }
  }

  lemma {:induction false} SilentRun(w: World, owners: map<ActorId, Owner>, actor: ActorId, actions: seq<Action>)
    requires Owned(owners) && Silent(w, owners, actor) && actor in owners
    requires forall a :: a in actions ==> OnlyDeletes(owners, actor, a)
    ensures var owner := owners[actor];
      && Silent(Run(w, actions), owners, actor)
      && Lookup(EntriesOf(Run(w, actions), owner.scope), owner.id) == Lookup(EntriesOf(w, owner.scope), owner.id)
    decreases |actions|
  {
    if actions != [] {
      assert actions[0] in actions && forall a :: a in actions[1..] ==> a in actions;
      if actions[0].Deliver? {
        DeliverStaysSilent(w, owners, actor, actions[0].actor);
      } else {
        CommandStaysSilent(w, owners, actor, actions[0]);
        CommandFrame(w, actions[0]);
      }
      SilentRun(Step(w, actions[0]), owners, actor, actions[1..]);
    }
  }

  lemma LosingScope(w: World, owners: map<ActorId, Owner>, actor: ActorId, scope: string, id: string)
    requires Inv(w, owners) && actor in owners && QueueOf(w, actor) == [] && IsBlank(scope) && !IsBlank(id)
    ensures var w' := Step(w, Delete(actor, scope, id)); var owner := owners[actor];
      && Silent(w', owners, actor)
      && Lookup(EntriesOf(w', owner.scope), owner.id) == Listing(ConversationOf(w, actor))
  {
    var a := Delete(actor, scope, id);
    var w' := Step(w, a);
    CommandFrame(w, a);
    DeleteEffect(w, actor, scope, id);
    AgreementInWorld(w, owners, actor);
    CommandKeepsIndexes(w, w', owners);
    forall b | b in owners && b != actor
      ensures Addressed(QueueOf(w', b), owners[b])
    {
      AgreementInWorld(w, owners, b);
    }
  }

  /**
   In a reachable state in which nothing of it is in flight, a delete that has lost its scope empties the conversation;
   whatever deletes of it follow, with the right scope too, and whatever the others do, the index goes on listing what
   it held.
   */
  lemma LostDeleteIsNotMadeGood(owners: map<ActorId, Owner>, actions: seq<Action>, actor: ActorId, scope: string, id: string,
                                more: seq<Action>)
    requires Owned(owners) && (forall a :: a in actions ==> Stable(owners, a)) && actor in owners
    requires QueueOf(Run(START, actions), actor) == [] && IsBlank(scope) && !IsBlank(id)
    requires forall a :: a in more ==> OnlyDeletes(owners, actor, a)
    ensures var w := Run(START, actions);
      var w' := Run(Step(w, Delete(actor, scope, id)), more); var owner := owners[actor];
      && ConversationOf(w', actor) == EMPTY
      && Lookup(EntriesOf(w', owner.scope), owner.id) == Listing(ConversationOf(w, actor))
  {
    StartIsInv(owners);
    RunKeepsInv(START, owners, actions);
    var w := Run(START, actions);
    LosingScope(w, owners, actor, scope, id);
    SilentRun(Step(w, Delete(actor, scope, id)), owners, actor, more);
  }
}
