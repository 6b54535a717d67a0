/** The thread index: every stored reply carries the root of its thread, so that a
    thread can be read with one query. */
module Threads {
  import opened Bytes

  const MAX_DEPTH := 10
  const MAX_THREAD := 100

  /** A stored message; 0 stands for NULL in both columns. */
  datatype Msg = Msg(area: nat, replyTo: nat, threadRoot: nat)

  datatype Store = Store(msgs: map<nat, Msg>, nextId: nat)

  /** The numbers of the areas and of the users, which rows of the table refer to. */
  datatype Tables = Tables(areas: set<int>, users: set<int>)

  /** What the commands and the importers do to the table; `ok` says whether the
      database keeps a row that breaks no constraint. */
  datatype Step =
    | Post(area: nat, user: int, replyTo: int, tables: Tables, ok: bool)
    | PostEx(area: nat, user: int, toUser: int, replyTo: int, tables: Tables, ok: bool)
    | Reply(id: int, user: int, tables: Tables, ok: bool)

  /** Rows are numbered from 1. */
  predicate Numbered(t: Tables) {
    0 !in t.areas && 0 !in t.users
  }

  /** The row refers to an area and a user that exist. */
  predicate Refers(t: Tables, area: nat, user: int) {
    area in t.areas && user in t.users
  }

  /** The root that the insert statement computes for a reply to `replyTo`, 0 for no reply. */
  function RootFor(msgs: map<nat, Msg>, replyTo: nat): nat {
    if replyTo in msgs && msgs[replyTo].threadRoot > 0 then msgs[replyTo].threadRoot else replyTo
  }

  /** A reply number that the foreign key accepts.  The key is checked when the new row
      is there, so that a row may also refer to itself. */
  predicate Answerable(st: Store, replyTo: int) {
    replyTo >= 0 && (replyTo in st.msgs || replyTo == st.nextId)
  }

  function Inserted(st: Store, area: nat, replyTo: nat): Store {
    Store(st.msgs[st.nextId := Msg(area, replyTo, RootFor(st.msgs, replyTo))], st.nextId + 1)
  }

  function Next(st: Store, s: Step): Store {
    match s
    case Post(area, user, replyTo, tables, ok) =>
      if !ok || !Refers(tables, area, user) then st
      else if replyTo <= 0 then Inserted(st, area, 0)
      else if Answerable(st, replyTo) then Inserted(st, area, replyTo) else st
    case PostEx(area, user, toUser, replyTo, tables, ok) =>
      if ok && Refers(tables, area, user) && toUser in tables.users && Answerable(st, replyTo)
      then Inserted(st, area, replyTo) else st
    case Reply(id, user, tables, ok) =>
      if id > 0 && id in st.msgs && ok && Refers(tables, st.msgs[id].area, user)
      then Inserted(st, st.msgs[id].area, id) else st
  }

  /** A step that stores a reply to the number that it is itself about to get. */
  predicate AnswersItself(st: Store, s: Step) {
    match s
    case Post(area, user, replyTo, tables, ok) => replyTo == st.nextId && ok && Refers(tables, area, user)
    case PostEx(area, user, toUser, replyTo, tables, ok) =>
      replyTo == st.nextId && ok && Refers(tables, area, user) && toUser in tables.users
    case Reply(_, _, _, _) => false
  }

  /** The end of the reply chain of a message. */
  function RootOf(msgs: map<nat, Msg>, id: nat): nat
    decreases id
  {
    if id in msgs && 0 < msgs[id].replyTo < id then RootOf(msgs, msgs[id].replyTo) else id
  }

  /** How many replies it is from a message to the end of its chain. */
  function Distance(msgs: map<nat, Msg>, id: nat): nat
    decreases id
  {
    if id in msgs && 0 < msgs[id].replyTo < id then 1 + Distance(msgs, msgs[id].replyTo) else 0
  }

  /** The reply chain ends in a message that answers itself. */
  predicate Circles(msgs: map<nat, Msg>, id: nat) {
    var root := RootOf(msgs, id);
    root in msgs && root > 0 && msgs[root].replyTo == root
  }

  /** The depth that a message is shown at. */
  function ShownDepth(msgs: map<nat, Msg>, id: nat): nat {
    if Circles(msgs, id) then MAX_DEPTH else Min(MAX_DEPTH, Distance(msgs, id))
  }

  /** The thread that cmd_msg_thread_view looks up for a message. */
  function ThreadOf(m: Msg, id: nat): nat {
    if m.threadRoot > 0 then m.threadRoot else id
  }

  predicate SoundMsg(msgs: map<nat, Msg>, id: nat)
    requires id in msgs
  {
    var m := msgs[id];
    0 < id && m.replyTo <= id && (m.replyTo > 0 ==> m.replyTo in msgs) && (m.replyTo == 0 <==> m.threadRoot == 0) &&
    ThreadOf(m, id) == RootOf(msgs, id)
  }

  /** Ids are below the next one, replies go to messages that are there and not newer,
      and the stored root is the end of the reply chain. */
  ghost predicate Sound(st: Store) {
    st.nextId > 0 && 0 !in st.msgs && (forall id :: id in st.msgs ==> id < st.nextId) &&
    forall id :: id in st.msgs ==> SoundMsg(st.msgs, id)
  }

  /** Replies go to older messages, so that no chain comes back to where it was. */
  ghost predicate Ordered(st: Store) {
    forall id :: id in st.msgs ==> st.msgs[id].replyTo < id
  }

  /** Replies are in the area of what they reply to. */
  ghost predicate SameAreas(st: Store) {
    forall id :: id in st.msgs && st.msgs[id].replyTo in st.msgs ==>
      st.msgs[st.msgs[id].replyTo].area == st.msgs[id].area
  }

  /** The condition of the query; a root that is NULL is equal to no number. */
  predicate InTree(m: Msg, id: nat, root: nat) {
    (m.threadRoot > 0 && m.threadRoot == root) || id == root
  }

  /** The ids at or above `i` that the query of db_message_reply_tree selects, in order. */
  function Selected(msgs: map<nat, Msg>, area: nat, root: nat, i: nat, n: nat): seq<nat>
    decreases n - i
  {
    if i >= n then []
    else
      (if i in msgs && msgs[i].area == area && InTree(msgs[i], i, root) then [i] else []) +
      Selected(msgs, area, root, i + 1, n)
  }

  lemma SelectedStep(msgs: map<nat, Msg>, area: nat, root: nat, i: nat, n: nat)
    requires i < n
    ensures var rest := Selected(msgs, area, root, i + 1, n);
            Selected(msgs, area, root, i, n) ==
            if i in msgs && msgs[i].area == area && InTree(msgs[i], i, root) then [i] + rest else rest
  {
  }

  lemma SelectedEnds(msgs: map<nat, Msg>, area: nat, root: nat, n: nat)
    ensures Selected(msgs, area, root, n, n) == []
  {
  }

  /** From a message to the one it answers. */
  lemma OneUp(st: Store, id: nat)
    requires Sound(st) && id in st.msgs
    ensures var up := st.msgs[id].replyTo;
            if up == 0 then !Circles(st.msgs, id) && Distance(st.msgs, id) == 0
            else up in st.msgs && Circles(st.msgs, up) == Circles(st.msgs, id) &&
                 (!Circles(st.msgs, id) ==> Distance(st.msgs, id) == 1 + Distance(st.msgs, up))
  {
    assert SoundMsg(st.msgs, id);
  }

  /** The table, its rows added one at a time. */
  class MessageBase {
    var msgs: map<nat, Msg>
    var nextId: nat

    ghost function Value(): Store
      reads this
    {
      Store(msgs, nextId)
    }

    constructor ()
      ensures Value() == Store(map[], 1)
    {
      msgs, nextId := map[], 1;
    }

    /** The insert statement; `replyTo` is 0 when NULL is bound, and the database
        refuses a reply to a message that is not there once the new row is.  `ok`
        says whether it finds the other rows that are referred to, and keeps the new one. */
    method Insert(area: nat, replyTo: int, isNull: bool, ok: bool) returns (done: bool)
      requires isNull ==> replyTo == 0
      modifies this
      ensures done == (ok && (isNull || Answerable(old(Value()), replyTo)))
      ensures Value() == if done then Inserted(old(Value()), area, replyTo) else old(Value())
    {
      done := ok && (isNull || (replyTo >= 0 && (replyTo in msgs || replyTo == nextId)));
      if done {
        var root := 0;
        if replyTo in msgs {
          root := msgs[replyTo].threadRoot;
        }
        if root == 0 && replyTo > 0 {
          root := replyTo;
        }
        msgs := msgs[nextId := Msg(area, replyTo, root)];
        nextId := nextId + 1;
      }
    }

    /** db_message_post */
    method DbMessagePost(area: nat, user: int, replyTo: int, tables: Tables, ok: bool) returns (done: bool)
      requires Sound(Value())
      modifies this
      ensures Value() == Next(old(Value()), Post(area, user, replyTo, tables, ok)) && (done <==> nextId > old(nextId))
    {
      var refers := Refers(tables, area, user);
      if replyTo > 0 {
        done := Insert(area, replyTo, false, ok && refers);
      } else {
        done := Insert(area, 0, true, ok && refers);
      }
    }

    /** db_message_post_ex: all numbers are bound as they are, even 0 */
    method DbMessagePostEx(area: nat, user: int, toUser: int, replyTo: int, tables: Tables, ok: bool)
      returns (done: bool)
      requires Sound(Value())
      modifies this
      ensures Value() == Next(old(Value()), PostEx(area, user, toUser, replyTo, tables, ok))
      ensures done <==> nextId > old(nextId)
    {
      done := Insert(area, replyTo, false, ok && Refers(tables, area, user) && toUser in tables.users);
    }

    /** cmd_msg_reply: a reply goes to the area of the message it answers */
    method CmdMsgReply(id: int, user: int, tables: Tables, ok: bool) returns (done: bool)
      requires Sound(Value())
      modifies this
      ensures Value() == Next(old(Value()), Reply(id, user, tables, ok)) && (done <==> nextId > old(nextId))
    {
      if id <= 0 || id !in msgs {
        return false;
      }
      done := DbMessagePost(msgs[id].area, user, id, tables, ok);
    }

    /** db_message_reply_tree, on the rows in the order of their ids */
    method DbMessageReplyTree(area: nat, root: nat, max: nat) returns (out: seq<nat>)
      ensures var all := Selected(msgs, area, root, 0, nextId); out == all[..Min(|all|, max)]
    {
      hide Selected;
      out := [];
      var i := 0;
      ghost var all := Selected(msgs, area, root, 0, nextId);
      while i < nextId && |out| < max
        invariant i <= nextId && |out| <= max
        invariant out + Selected(msgs, area, root, i, nextId) == all
      {
        SelectedStep(msgs, area, root, i, nextId);
        if i in msgs && msgs[i].area == area && InTree(msgs[i], i, root) {
          Assoc(out, [i], Selected(msgs, area, root, i + 1, nextId));
          out := out + [i];
        }
        i := i + 1;
      }
      if i == nextId {
        SelectedEnds(msgs, area, root, nextId);
      }
    }

    /** The depth loop of cmd_msg_thread_view: it goes round on a message that answers
        itself until the depth is 10. */
    method Depth(id: nat) returns (depth: nat)
      requires Sound(Value()) && id in msgs
      ensures depth == ShownDepth(msgs, id)
    {
      hide RootOf, Distance, Circles, SoundMsg;
      depth := 0;
      var parent := msgs[id].replyTo;
      ghost var far, circles := Distance(msgs, id), Circles(msgs, id);
      OneUp(Value(), id);
      while parent > 0 && depth < MAX_DEPTH
        invariant depth <= MAX_DEPTH && (parent > 0 ==> parent in msgs && Circles(msgs, parent) == circles)
        invariant circles ==> parent > 0
        invariant !circles ==> far == depth + if parent > 0 then 1 + Distance(msgs, parent) else 0
        decreases MAX_DEPTH - depth
      {
        depth := depth + 1;
        OneUp(Value(), parent);
        if parent in msgs {
          parent := msgs[parent].replyTo;
        } else {
          break;
        }
      }
    }

    /** The lookup of cmd_msg_thread_view: the thread of any message. */
    method CmdMsgThreadView(id: nat) returns (shown: seq<nat>)
      requires Sound(Value()) && id in msgs
      ensures var all := Selected(msgs, msgs[id].area, RootOf(msgs, id), 0, nextId);
              shown == all[..Min(|all|, 100)]
    {
      var m := msgs[id];
      assert SoundMsg(msgs, id);
      var root := if m.threadRoot > 0 then m.threadRoot else id;
      shown := DbMessageReplyTree(m.area, root, MAX_THREAD);
    }
  }
}
