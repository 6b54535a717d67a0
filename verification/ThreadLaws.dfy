/** After any run the stored roots are the ends of the reply chains, and the thread
    query finds exactly the messages that share one. */
module ThreadLaws {
  import opened Bytes
  import opened Threads

  function Run(st: Store, steps: seq<Step>): Store {
    if steps == [] then st else Next(Run(st, steps[..|steps| - 1]), steps[|steps| - 1])
  }

  const EMPTY := Store(map[], 1)

  /** A message with a higher number changes no older chain. */
  lemma {:induction false} ChainKept(msgs: map<nat, Msg>, n: nat, m: Msg, id: nat)
    requires id < n
    ensures RootOf(msgs[n := m], id) == RootOf(msgs, id) && Distance(msgs[n := m], id) == Distance(msgs, id)
    decreases id
  {
    if id in msgs && 0 < msgs[id].replyTo < id {
      ChainKept(msgs, n, m, msgs[id].replyTo);
    }
  }

  lemma RootIsStored(st: Store, id: nat)
    requires Sound(st) && id in st.msgs
    ensures RootOf(st.msgs, id) > 0
  {
    assert SoundMsg(st.msgs, id);
  }

  lemma OldIsSound(st: Store, m: Msg, id: nat)
    requires Sound(st) && id in st.msgs
    ensures id < st.nextId && SoundMsg(st.msgs[st.nextId := m], id)
  {
    hide RootOf, Distance;
    assert SoundMsg(st.msgs, id);
    ChainKept(st.msgs, st.nextId, m, id);
  }

  lemma InsertKeeps(st: Store, area: nat, replyTo: nat)
    requires Sound(st) && (replyTo > 0 ==> Answerable(st, replyTo))
    ensures Sound(Inserted(st, area, replyTo))
  {
    hide SoundMsg, RootFor;
    var n, m := st.nextId, Msg(area, replyTo, RootFor(st.msgs, replyTo));
    NewIsSound(st, m);
    forall id | id in st.msgs ensures id < n && SoundMsg(st.msgs[n := m], id) {
      OldIsSound(st, m, id);
    }
  }

  lemma InsertOrders(st: Store, area: nat, replyTo: nat)
    requires Sound(st) && (replyTo > 0 ==> Answerable(st, replyTo))
    ensures Ordered(Inserted(st, area, replyTo)) <==> Ordered(st) && replyTo != st.nextId
  {
    hide SoundMsg, RootFor;
    var after := Inserted(st, area, replyTo).msgs;
    assert after[st.nextId].replyTo == replyTo;
    assert forall id :: id in st.msgs ==> after[id] == st.msgs[id];
  }

  lemma NewIsSound(st: Store, m: Msg)
    requires Sound(st) && (m.replyTo > 0 ==> Answerable(st, m.replyTo)) && m.threadRoot == RootFor(st.msgs, m.replyTo)
    ensures SoundMsg(st.msgs[st.nextId := m], st.nextId)
  {
    if 0 < m.replyTo < st.nextId {
      assert SoundMsg(st.msgs, m.replyTo);
      ChainKept(st.msgs, st.nextId, m, m.replyTo);
      RootIsStored(st, m.replyTo);
    }
  }

  /** Every step keeps the index.  Replies stay in order exactly if the step stores no
      reply to its own number. */
  lemma NextKeeps(st: Store, s: Step)
    requires Sound(st)
    ensures Sound(Next(st, s))
    ensures Ordered(Next(st, s)) <==> Ordered(st) && !AnswersItself(st, s)
    ensures forall id :: id in st.msgs ==> id in Next(st, s).msgs && Next(st, s).msgs[id] == st.msgs[id]
  {
    hide Sound, Ordered, Inserted;
    match s
    case Post(area, _, replyTo, _, _) => AnyInsert(st, area, if Answerable(st, replyTo) then replyTo else 0);
    case PostEx(area, _, _, replyTo, _, _) => AnyInsert(st, area, if Answerable(st, replyTo) then replyTo else 0);
    case Reply(id, _, _, _) => AnyInsert(st, if id > 0 && id in st.msgs then st.msgs[id].area else 0,
                                         if Answerable(st, id) then id else 0);
  }

  lemma AnyInsert(st: Store, area: nat, replyTo: nat)
    requires Sound(st) && (replyTo > 0 ==> Answerable(st, replyTo))
    ensures 0 !in st.msgs && st.nextId > 0 && st.nextId !in st.msgs
    ensures var after := Inserted(st, area, replyTo);
            Sound(after) && (Ordered(after) <==> Ordered(st) && replyTo != st.nextId) &&
            forall id :: id in st.msgs ==> id in after.msgs && after.msgs[id] == st.msgs[id]
  {
    hide SoundMsg, RootFor, Ordered;
    InsertKeeps(st, area, replyTo);
    InsertOrders(st, area, replyTo);
  }

  /** No step stores a reply to the number that it gets. */
  ghost predicate NoneAnswersItself(steps: seq<Step>) {
    forall k :: 0 <= k < |steps| ==> !AnswersItself(Run(EMPTY, steps[..k]), steps[k])
  }

  lemma OneMoreStep(steps: seq<Step>, n: nat)
    requires |steps| == n + 1
    ensures NoneAnswersItself(steps) <==>
            NoneAnswersItself(steps[..n]) && !AnswersItself(Run(EMPTY, steps[..n]), steps[n])
  {
    hide Run, AnswersItself;
    assert forall k :: 0 <= k < n ==> steps[..n][..k] == steps[..k] && steps[..n][k] == steps[k];
  }

  /** After any sequence of posts, imports and replies; no message answers itself if and
      only if no step stored a reply to the number that it got. */
  lemma {:induction false} RunKeeps(steps: seq<Step>)
    ensures Sound(Run(EMPTY, steps))
    ensures Ordered(Run(EMPTY, steps)) <==> NoneAnswersItself(steps)
  {
    hide Next, AnswersItself, Sound, Ordered, NoneAnswersItself;
    if steps != [] {
      var n := |steps| - 1;
      RunKeeps(steps[..n]);
      NextKeeps(Run(EMPTY, steps[..n]), steps[n]);
      OneMoreStep(steps, n);
    } else {
      NothingStored();
    }
  }

  lemma NothingStored()
    ensures Sound(EMPTY) && Ordered(EMPTY) && NoneAnswersItself([])
  {
  }

  /** A message that is posted as a reply to its own number is stored as its own root, and
      it is shown as deep as a message can be. */
  lemma SelfReplyIsStored(st: Store, area: nat, user: int, t: Tables)
    requires Sound(st) && Refers(t, area, user)
    ensures var n := st.nextId;
            var after := Next(st, Post(area, user, n, t, true));
            n in after.msgs && after.msgs[n] == Msg(area, n, n) && !Ordered(after) &&
            ShownDepth(after.msgs, n) == 10
  {
  }

  /* ---------- which posts are stored ---------- */

  /** db_message_post stores a message if and only if its area and its user exist and it
      is no reply or one to a message that exists when it does: an older one or itself. */
  lemma PostStoresIff(st: Store, area: nat, user: int, replyTo: int, t: Tables, ok: bool)
    requires Sound(st)
    ensures Next(st, Post(area, user, replyTo, t, ok)) != st <==>
            ok && area in t.areas && user in t.users && (replyTo > 0 ==> replyTo in st.msgs || replyTo == st.nextId)
  {
    hide RootFor;
    InsertedIsNew(st, area, if replyTo > 0 then replyTo else 0);
  }

  /** db_message_post_ex stores a message if and only if it is a private reply: its area,
      its sender, its recipient and the message it answers, which may be itself, all exist,
      none of them 0. */
  lemma PostExStoresIff(st: Store, area: nat, user: int, toUser: int, replyTo: int, t: Tables, ok: bool)
    requires Sound(st) && Numbered(t)
    ensures Next(st, PostEx(area, user, toUser, replyTo, t, ok)) != st <==>
            ok && area in t.areas && user in t.users && toUser in t.users && replyTo > 0 &&
            (replyTo in st.msgs || replyTo == st.nextId)
    ensures Next(st, PostEx(area, user, toUser, replyTo, t, ok)) != st ==>
            area != 0 && user != 0 && toUser != 0 && replyTo != 0
  {
    hide RootFor;
    if replyTo >= 0 {
      InsertedIsNew(st, area, replyTo);
    }
  }

  /** cmd_msg_reply stores a reply if and only if the message it answers exists, and its
      area and the user. */
  lemma ReplyStoresIff(st: Store, id: int, user: int, t: Tables, ok: bool)
    requires Sound(st)
    ensures Next(st, Reply(id, user, t, ok)) != st <==>
            ok && id in st.msgs && st.msgs[id].area in t.areas && user in t.users
  {
    hide RootFor;
    if id > 0 && id in st.msgs {
      InsertedIsNew(st, st.msgs[id].area, id);
    }
  }

  /** What a step asks for: the area, and the message that is answered, 0 for none. */
  function Asked(st: Store, s: Step): (int, int) {
    match s
    case Post(area, _, replyTo, _, _) => (area, if replyTo > 0 then replyTo else 0)
    case PostEx(area, _, _, replyTo, _, _) => (area, replyTo)
    case Reply(id, _, _, _) => (if id >= 0 && id in st.msgs then st.msgs[id].area else 0, id)
  }

  /** A message that is stored gets the next number, the area and the answered message that
      were asked for, and the root of the one it answers, or that one itself if it has none. */
  lemma StoredAsAsked(st: Store, s: Step)
    requires Sound(st) && Next(st, s) != st
    ensures var (area, replyTo) := Asked(st, s);
            var after, n := Next(st, s), st.nextId;
            after.nextId == n + 1 && n in after.msgs && after.msgs[n].area == area &&
            after.msgs[n].replyTo == replyTo &&
            after.msgs[n].threadRoot ==
            if replyTo in st.msgs && st.msgs[replyTo].replyTo > 0 then st.msgs[replyTo].threadRoot else replyTo
  {
    if Asked(st, s).1 in st.msgs {
      assert SoundMsg(st.msgs, Asked(st, s).1);
    }
  }

  lemma InsertedIsNew(st: Store, area: nat, replyTo: nat)
    ensures Inserted(st, area, replyTo) != st
  {
    hide RootFor;
    assert Inserted(st, area, replyTo).nextId != st.nextId;
  }

  /** A message that is posted by db_message_post_ex as no reply is refused: its 0 is
      bound as a number, and no message has that number. */
  lemma UnboundReplyIsRefused(st: Store, area: nat, user: int, toUser: int, t: Tables, ok: bool)
    requires Sound(st)
    ensures Next(st, PostEx(area, user, toUser, 0, t, ok)) == st
  {
  }

  /** And so is one to everybody, even as a reply, for no user has the number 0. */
  lemma PublicReplyIsRefused(st: Store, area: nat, user: int, replyTo: int, t: Tables, ok: bool)
    requires Numbered(t)
    ensures Next(st, PostEx(area, user, 0, replyTo, t, ok)) == st
  {
  }

  /** The importers of reply packets and of echomail post to everybody and as no reply,
      so that over any sequence of imports the table stays as it is. */
  lemma {:induction false} ImportsStoreNothing(st: Store, steps: seq<Step>)
    requires Sound(st)
    requires forall k :: 0 <= k < |steps| ==> steps[k].PostEx? && steps[k].toUser == 0 && steps[k].replyTo == 0
    ensures Run(st, steps) == st
  {
    if steps != [] {
      ImportsStoreNothing(st, steps[..|steps| - 1]);
    }
  }

  /* ---------- the query ---------- */

  /** A message that no other one comes before: it is no reply, or it answers itself. */
  predicate IsRoot(msgs: map<nat, Msg>, id: nat) {
    id in msgs && id > 0 && RootOf(msgs, id) == id
  }

  /** Chains end at messages that are no replies to others. */
  lemma {:induction false} ChainsEnd(st: Store, id: nat)
    requires Sound(st) && id in st.msgs
    ensures IsRoot(st.msgs, RootOf(st.msgs, id)) && (Ordered(st) ==> st.msgs[RootOf(st.msgs, id)].replyTo == 0)
    decreases id
  {
    assert SoundMsg(st.msgs, id);
    if 0 < st.msgs[id].replyTo < id {
      ChainsEnd(st, st.msgs[id].replyTo);
    }
  }

  /** Without a message that answers itself every message is shown at its distance from
      the root, up to 10. */
  lemma OrderedDepth(st: Store, id: nat)
    requires Sound(st) && Ordered(st) && id in st.msgs
    ensures ShownDepth(st.msgs, id) == Min(10, Distance(st.msgs, id))
  {
    ChainsEnd(st, id);
  }

  /** A message that is no reply is shown at depth 0, and a reply one deeper than the message
      it answers, up to 10. */
  lemma DepthSteps(st: Store, id: nat)
    requires Sound(st) && Ordered(st) && id in st.msgs
    ensures var up := st.msgs[id].replyTo;
            if up == 0 then ShownDepth(st.msgs, id) == 0
            else up in st.msgs && ShownDepth(st.msgs, id) == Min(10, 1 + ShownDepth(st.msgs, up))
  {
    OrderedDepth(st, id);
    OneUp(st, id);
    if st.msgs[id].replyTo > 0 {
      OrderedDepth(st, st.msgs[id].replyTo);
    }
  }

  /** No message is in a thread of root 0. */
  lemma {:induction false} RootZeroFindsNone(st: Store, area: nat, i: nat)
    requires Sound(st)
    ensures Selected(st.msgs, area, 0, i, st.nextId) == []
    decreases st.nextId - i
  {
    if i < st.nextId {
      RootZeroFindsNone(st, area, i + 1);
    }
  }

  predicate Increasing(ids: seq<nat>) {
    forall a, b :: 0 <= a < b < |ids| ==> ids[a] < ids[b]
  }

  /** The query lists each message of the area that is in the thread, once, in the order of the ids. */
  lemma {:induction false} SelectedAre(st: Store, area: nat, root: nat, i: nat, id: nat)
    requires Sound(st) && IsRoot(st.msgs, root)
    ensures id in Selected(st.msgs, area, root, i, st.nextId) <==>
            i <= id && id in st.msgs && st.msgs[id].area == area && RootOf(st.msgs, id) == root
    decreases st.nextId - i
  {
    hide RootOf, InTree;
    if i < st.nextId {
      SelectedAre(st, area, root, i + 1, id);
      if i in st.msgs {
        InThread(st, root, i);
      }
    }
  }

  lemma InThread(st: Store, root: nat, id: nat)
    requires Sound(st) && IsRoot(st.msgs, root) && id in st.msgs
    ensures InTree(st.msgs[id], id, root) <==> RootOf(st.msgs, id) == root
  {
    assert SoundMsg(st.msgs, id);
  }

  lemma {:induction false} SelectedInOrder(msgs: map<nat, Msg>, area: nat, root: nat, i: nat, n: nat)
    ensures Increasing(Selected(msgs, area, root, i, n))
    ensures forall k :: 0 <= k < |Selected(msgs, area, root, i, n)| ==> Selected(msgs, area, root, i, n)[k] >= i
    decreases n - i
  {
    if i < n {
      SelectedInOrder(msgs, area, root, i + 1, n);
    }
  }

  /** Whichever message of a thread is asked for, what is found is the same, and it is
      exactly the messages of the area that share its root. */
  lemma ThreadIsFound(st: Store, asked: nat, id: nat)
    requires Sound(st) && asked in st.msgs
    ensures var found := Selected(st.msgs, st.msgs[asked].area, ThreadOf(st.msgs[asked], asked), 0, st.nextId);
            Increasing(found) &&
            (id in found <==> id in st.msgs && RootOf(st.msgs, id) == RootOf(st.msgs, asked) &&
                              st.msgs[id].area == st.msgs[asked].area)
  {
    hide RootOf, ThreadOf, Selected;
    assert SoundMsg(st.msgs, asked);
    ChainsEnd(st, asked);
    SelectedAre(st, st.msgs[asked].area, RootOf(st.msgs, asked), 0, id);
    SelectedInOrder(st.msgs, st.msgs[asked].area, RootOf(st.msgs, asked), 0, st.nextId);
  }

  /* ---------- areas ---------- */

  /** A step that keeps threads in their areas: no reply, or one by the reply command. */
  predicate KeepsAreas(s: Step) {
    match s
    case Post(_, _, replyTo, _, _) => replyTo <= 0
    case PostEx(_, _, _, replyTo, _, _) => replyTo <= 0
    case Reply(_, _, _, _) => true
  }

  lemma StepKeepsAreas(st: Store, s: Step)
    requires Sound(st) && SameAreas(st) && KeepsAreas(s)
    ensures SameAreas(Next(st, s))
  {
    forall id | id in st.msgs ensures st.msgs[id].replyTo <= id {
      assert SoundMsg(st.msgs, id);
    }
  }

  lemma {:induction false} RunKeepsAreas(steps: seq<Step>)
    requires forall k :: 0 <= k < |steps| ==> KeepsAreas(steps[k])
    ensures SameAreas(Run(EMPTY, steps))
  {
    hide Next, SameAreas;
    if steps == [] {
      EmptyKeepsAreas();
    } else {
      RunKeepsAreas(steps[..|steps| - 1]);
      RunKeeps(steps[..|steps| - 1]);
      StepKeepsAreas(Run(EMPTY, steps[..|steps| - 1]), steps[|steps| - 1]);
    }
  }

  lemma EmptyKeepsAreas()
    ensures SameAreas(EMPTY)
  {
  }

  lemma {:induction false} AreaOfRoot(st: Store, id: nat)
    requires Sound(st) && SameAreas(st) && id in st.msgs
    ensures RootOf(st.msgs, id) in st.msgs && st.msgs[RootOf(st.msgs, id)].area == st.msgs[id].area
    decreases id
  {
    assert SoundMsg(st.msgs, id);
    if 0 < st.msgs[id].replyTo < id {
      AreaOfRoot(st, st.msgs[id].replyTo);
    }
  }

  /** When replies are posted by the reply command the thread that is found is all the
      messages whose reply chains end where the asked one's does. */
  lemma WholeThreadIsFound(steps: seq<Step>, asked: nat, id: nat)
    requires forall k :: 0 <= k < |steps| ==> KeepsAreas(steps[k])
    requires asked in Run(EMPTY, steps).msgs
    ensures var st := Run(EMPTY, steps);
            id in Selected(st.msgs, st.msgs[asked].area, ThreadOf(st.msgs[asked], asked), 0, st.nextId) <==>
            id in st.msgs && RootOf(st.msgs, id) == RootOf(st.msgs, asked)
  {
    hide RootOf, Selected, ThreadOf, Next, SameAreas;
    var st := Run(EMPTY, steps);
    RunKeeps(steps);
    RunKeepsAreas(steps);
    ThreadIsFound(st, asked, id);
    AreaOfRoot(st, asked);
    if id in st.msgs {
      AreaOfRoot(st, id);
    }
  }
}
