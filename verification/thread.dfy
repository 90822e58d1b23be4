/**
 The thread detail view: the fetched thread, the reply panel and its draft,
 the status message with its auto-clear timer, and the requests each user
 action or server reply sends. Requests are outputs of a step and their
 results are later input events; time advances in 1 ms ticks.
 */
module Thread {
  import opened Wrappers
  import Storage

  /** How long a message stays before the timer resets it. */
  const MessageClearMs: nat := 2000

  datatype Author = Author(id: string, username: string)

  datatype Reply = Reply(author: Author, content: string, date: string)

  datatype ThreadData = ThreadData(
    id: string, title: string, content: string, author: Author,
    likes: int, liked: bool, createDate: string, replies: seq<Reply>)

  /** The message object: `{}` (Cleared) or `{color, content}`. Both are truthy objects. */
  datatype Message = Cleared | Shown(color: string, content: string)

  /**
   id:           the thread id from the route parameters.
   thread:       the fetched thread, absent until a fetch succeeds.
   replyVisible: whether the reply panel is open.
   draft:        the reply payload's `content`, absent when the payload is `{}`.
   message:      the status message.
   timer:        milliseconds left on the message-reset timer, if one is live.
   */
  datatype View = View(
    id: string, thread: Option<ThreadData>, replyVisible: bool,
    draft: Option<string>, message: Message, timer: Option<nat>)

  datatype Request = GetThread(id: string) | PostReply(threadId: string, content: string) | PostLike(threadId: string, like: bool)

  /** The end of a GET: a response reaching the success handler, or a rejection. */
  datatype Fetched = Got(status: int, data: ThreadData) | FetchRejected

  /** The end of a POST whose body the view does not read. */
  datatype Posted = Status(code: int) | PostRejected

  datatype Event =
    | ToggleReply
    | EditDraft(value: string)
    | SendReply
    | ClickLike
    | ThreadFetched(fetched: Fetched)
    | ReplyPosted(posted: Posted)
    | LikePosted(posted: Posted)
    | Tick

  datatype Step = Step(view: View, sent: seq<Request>)

  /**
   Mounting: nothing is loaded, the panel is closed with an empty payload,
   the message is `{}`, which is truthy, so the reset timer is armed at
   once; and the thread is requested.
   */
  function Mount(id: string): (s: Step)
    ensures s.view.id == id && s.view.message == Cleared
    ensures s.view.thread.None? && !s.view.replyVisible && s.view.draft.None?
    ensures s.view.timer == Some(2000)
    ensures s.sent == [GetThread(id)]
  {
    Step(View(id, None, false, None, Cleared, Some(MessageClearMs)), [GetThread(id)])
  }

  /** The reply button is disabled exactly when the draft content is absent or empty. */
  predicate ReplyEnabled(v: View) {
    Storage.Truthy(v.draft)
  }

  /**
   Setting a message: the effect's cleanup cancels the pending timer and a
   new one starts with the full 2000 ms, so the window restarts and only one
   timer is ever live.
   */
  function SetMessage(v: View, m: Message): (r: View)
    ensures r.message == m && r.timer == Some(2000)
    ensures r.id == v.id && r.thread == v.thread && r.replyVisible == v.replyVisible && r.draft == v.draft
  {
    v.(message := m, timer := Some(MessageClearMs))
  }

  /** One millisecond passes; when the timer runs out the message is reset to a new `{}`, which re-arms it. */
  function TickOnce(v: View): View {
    match v.timer
    case None => v
    case Some(left) =>
      if left <= 1 then SetMessage(v, Cleared) else v.(timer := Some(left - 1))
  }

  /** The message after a reply succeeded. */
  const ReplySuccess: Message := Shown("keppel", "success")

  /**
   One event. Controls exist only while they are rendered: the like and
   reply-toggle buttons once a thread is loaded, the editor and the reply
   button only while the panel is open, and the reply button only sends
   while enabled. An event for a control that is not there changes nothing.
   */
  function Next(v: View, e: Event): (s: Step)
    ensures e == Tick ==> s.sent == []
  {
    match e
    case ToggleReply =>
      if v.thread.None? then Step(v, [])
      else Step(v.(replyVisible := !v.replyVisible, draft := None), [])
    case EditDraft(value) =>
      if v.thread.None? || !v.replyVisible then Step(v, [])
      else Step(v.(draft := Some(value)), [])
    case SendReply =>
      if v.thread.None? || !v.replyVisible || !ReplyEnabled(v) then Step(v, [])
      else Step(v, [PostReply(v.id, v.draft.value)])
    case ClickLike =>
      if v.thread.None? then Step(v, [])
      else Step(v, [PostLike(v.id, !v.thread.value.liked)])
    case ThreadFetched(fetched) =>
      if fetched.Got? && fetched.status == 200 then Step(v.(thread := Some(fetched.data)), [])
      else Step(v, [])
    case ReplyPosted(posted) =>
      if posted == Status(201) then Step(SetMessage(v, ReplySuccess).(draft := None), [GetThread(v.id)])
      else Step(v, [])
    case LikePosted(posted) =>
      if posted == Status(201) then Step(v, [GetThread(v.id)])
      else Step(v, [])
    case Tick =>
      Step(TickOnce(v), [])
  }

  /** Every toggle of the panel, opening or closing, leaves the draft empty and nothing else changes. */
  lemma ToggleResetsDraft(v: View)
    requires v.thread.Some?
    ensures Next(v, ToggleReply).view.replyVisible == !v.replyVisible
    ensures Next(v, ToggleReply).view.draft.None?
    ensures Next(v, ToggleReply).view == v.(replyVisible := !v.replyVisible, draft := None)
  {
  }

  /** Shown, hidden, shown again: the draft is empty whatever was typed before. */
  lemma ReopenedPanelIsEmpty(v: View, typed: string)
    requires v.thread.Some? && v.replyVisible
    ensures var typedIn := Next(v, EditDraft(typed)).view;
      var reopened := Next(Next(typedIn, ToggleReply).view, ToggleReply).view;
      reopened.replyVisible && reopened.draft.None?
  {
  }

  /** A like click sends the negation of the thread's current `liked`, and changes no state. */
  lemma LikeSendsNegation(v: View)
    requires v.thread.Some?
    ensures Next(v, ClickLike) == Step(v, [PostLike(v.id, !v.thread.value.liked)])
  {
  }

  /**
   A like reply: 201 triggers exactly one refetch of this thread; anything
   else, a rejection included, sends nothing. The state is unchanged either
   way, so a failed like leaves `liked` and `likes` as they were.
   */
  lemma LikeReplyOutcome(v: View, posted: Posted)
    ensures Next(v, LikePosted(posted)).view == v
    ensures Next(v, LikePosted(posted)).sent == (if posted == Status(201) then [GetThread(v.id)] else [])
  {
  }

  /**
   Sending a reply: exactly when the panel is open on a loaded thread and
   the draft is non-empty, the draft is posted for this thread; no state
   changes.
   */
  lemma SendReplyOutcome(v: View)
    ensures Next(v, SendReply).view == v
    ensures |Next(v, SendReply).sent| > 0
        <==> v.thread.Some? && v.replyVisible && v.draft.Some? && v.draft.value != ""
    ensures |Next(v, SendReply).sent| > 0 ==> Next(v, SendReply).sent == [PostReply(v.id, v.draft.value)]
  {
  }

  /**
   A reply result: 201 shows "success", restarts the message window, clears
   the draft and refetches; anything else, a rejection included, changes
   nothing: the draft is kept and no message is set.
   */
  lemma ReplyResultOutcome(v: View, posted: Posted)
    ensures posted == Status(201) ==>
      && Next(v, ReplyPosted(posted)).view.message == Shown("keppel", "success")
      && Next(v, ReplyPosted(posted)).view.timer == Some(MessageClearMs)
      && Next(v, ReplyPosted(posted)).view.draft.None?
      && Next(v, ReplyPosted(posted)).view.thread == v.thread
      && Next(v, ReplyPosted(posted)).sent == [GetThread(v.id)]
    ensures posted != Status(201) ==> Next(v, ReplyPosted(posted)) == Step(v, [])
  {
  }

  /** A fetch replaces the thread exactly on status 200; any other outcome keeps the prior one. */
  lemma FetchOutcome(v: View, fetched: Fetched)
    ensures fetched.Got? && fetched.status == 200 ==>
      Next(v, ThreadFetched(fetched)).view == v.(thread := Some(fetched.data))
    ensures !(fetched.Got? && fetched.status == 200) ==> Next(v, ThreadFetched(fetched)).view == v
    ensures Next(v, ThreadFetched(fetched)).sent == []
  {
  }

  /** A refetch is requested only after a successful (201) reply or like. */
  lemma RefetchOnlyAfterSuccess(v: View, e: Event)
    ensures GetThread(v.id) in Next(v, e).sent ==> e == ReplyPosted(Status(201)) || e == LikePosted(Status(201))
  {
  }

  /** Events in order, collecting every request sent. */
  function Run(v: View, events: seq<Event>): Step
    decreases |events|
  {
    if |events| == 0 then Step(v, [])
    else
      var first := Next(v, events[0]);
      var rest := Run(first.view, events[1..]);
      Step(rest.view, first.sent + rest.sent)
  }

  predicate IsSuccessfulFetch(e: Event) {
    e.ThreadFetched? && e.fetched.Got? && e.fetched.status == 200
  }

  /** Only a 200 fetch replaces the thread: a run without one keeps the thread it started with. */
  lemma {:induction false} ThreadChangesOnlyOnFetch(v: View, events: seq<Event>)
    requires forall i :: 0 <= i < |events| ==> !IsSuccessfulFetch(events[i])
    ensures Run(v, events).view.thread == v.thread
    decreases |events|
  {
    if |events| > 0 {
      ThreadChangesOnlyOnFetch(Next(v, events[0]).view, events[1..]);
    }
  }

  /**
   The view invariant: the reset timer is always live with 1 to 2000 ms
   left, the panel opens only on a loaded thread, and a draft exists only
   while the panel is open.
   */
  predicate Valid(v: View) {
    && v.timer.Some? && 1 <= v.timer.value <= MessageClearMs
    && (v.replyVisible ==> v.thread.Some?)
    && (v.draft.Some? ==> v.replyVisible)
  }

  /** Mounting establishes the invariant and every event preserves it. */
  lemma {:induction false} RunKeepsValid(id: string, events: seq<Event>)
    ensures Valid(Mount(id).view)
    ensures Valid(Run(Mount(id).view, events).view)
  {
    ValidPreserved(Mount(id).view, events);
  }

  lemma {:induction false} ValidPreserved(v: View, events: seq<Event>)
    requires Valid(v)
    ensures Valid(Run(v, events).view)
    decreases |events|
  {
    if |events| > 0 {
      ValidPreserved(Next(v, events[0]).view, events[1..]);
    }
  }

  /** `k` milliseconds with no other event. */
  function Ticks(v: View, k: nat): View
    decreases k
  {
    if k == 0 then v else Ticks(TickOnce(v), k - 1)
  }

  /**
   The message window: with `left` ms on the timer, the message stays for
   fewer than `left` ticks, the timer counting down, and is reset after
   exactly `left` ticks, with a fresh 2000 ms timer.
   */
  lemma {:induction false} MessageClearedWhenTimerRunsOut(v: View, left: nat, k: nat)
    requires v.timer == Some(left) && 1 <= left
    requires k <= left
    ensures k < left ==> Ticks(v, k) == v.(timer := Some(left - k))
    ensures k == left ==> Ticks(v, k) == v.(message := Cleared, timer := Some(MessageClearMs))
    decreases k
  {
    if k > 0 {
      if left == 1 {
        assert Ticks(v, 1) == Ticks(TickOnce(v), 0);
      } else {
        MessageClearedWhenTimerRunsOut(v.(timer := Some(left - 1)), left - 1, k - 1);
      }
    }
  }

  /**
   After a reply succeeds, the message state holds "success" for 1999 ms of
   quiet and is cleared at 2000 ms. It is rendered only while the reply
   panel is open.
   */
  lemma {:induction false} ReplyMessageLastsTwoSeconds(v: View, k: nat)
    requires k <= MessageClearMs
    ensures var shown := Next(v, ReplyPosted(Status(201))).view;
      && (k < MessageClearMs ==> Ticks(shown, k).message == Shown("keppel", "success"))
      && (k == MessageClearMs ==> Ticks(shown, k).message == Cleared)
  {
    var shown := Next(v, ReplyPosted(Status(201))).view;
    MessageClearedWhenTimerRunsOut(shown, MessageClearMs, k);
  }

  /** A reply's heading: the username and whether the "(author)" mark follows it. */
  datatype Heading = Heading(username: string, byAuthor: bool)

  /**
   The reply list as rendered: one heading per reply, in server order, each
   marked "(author)" exactly when the reply's author id is the thread
   author's id.
   */
  function Headings(authorId: string, replies: seq<Reply>): (hs: seq<Heading>)
    ensures |hs| == |replies|
    ensures forall i :: 0 <= i < |replies| ==> hs[i].username == replies[i].author.username
    ensures forall i :: 0 <= i < |replies| ==> (hs[i].byAuthor <==> replies[i].author.id == authorId)
    decreases |replies|
  {
    if |replies| == 0 then []
    else
      [Heading(replies[0].author.username, replies[0].author.id == authorId)]
        + Headings(authorId, replies[1..])
  }
}
