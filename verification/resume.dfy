/** Connecting to GET /events (internal/events/handler.go): from the resume hints of the
    request, through the 410 gate, to what the replayer sends when nothing changes in
    between; and the topic routing that decides who sees which event
    (internal/events/hub.go:259-287). */
module Resume {
  import opened Prelude
  import opened ReplayBuffer
  import opened Replay

  const BROADCAST := "__broadcast__"
  const KEEP_ALIVE := "__keep_alive__"
  const BARRIER := "__barrier__"
  const REPLAY_ALL := "__replay_all__"
  const ERROR_TYPE := "error"
  const OFFSET_ONLY_TYPE := "offset-only"

  predicate InternalTopic(t: string) {
    t == BROADCAST || t == KEEP_ALIVE || t == BARRIER || t == REPLAY_ALL
  }

  function SubscriptionTopics(requested: seq<string>, replayAll: bool): seq<string> {
    [KEEP_ALIVE] + (if replayAll then [REPLAY_ALL] else [])
    + (if requested == [] then [BROADCAST] else requested)
  }

  /** The resume position a request ends up with. An empty id means no cursor. */
  datatype Hint = Hint(lastEventID: string, synthesised: bool, replayAll: bool)

  function PromoteResumeHint(header: string, from: string, fromTimestamp: Option<int>,
                             buffer: Option<seq<Entry>>): Hint
  {
    if header != "" then Hint(header, false, false)
    else if from != "" then Hint(from, false, false)
    else if fromTimestamp.None? || buffer.None? then Hint("", false, false)
    else
      match IdBefore(buffer.value, fromTimestamp.value)
      case Some(id) => Hint(id, true, false)
      case None => Hint("", false, true)
  }

  predicate AgedOut(h: Hint, buffer: Option<seq<Entry>>) {
    h.lastEventID != "" && !h.synthesised && (buffer.None? || !Has(buffer.value, h.lastEventID))
  }

  /** Replay's choice of snapshot: a cursor wins over the whole-buffer marker. */
  function Snapshot(s: seq<Entry>, lastEventID: string, topics: seq<string>): seq<nat> {
    if lastEventID == "" then
      if REPLAY_ALL in topics then Collect(s, topics) else []
    else
      match After(s, lastEventID, topics)
      case Some(msgs) => msgs
      case None => []
  }

  datatype Response = Gone | Stream(topics: seq<string>, replayed: seq<nat>)

  function Connect(header: string, from: string, fromTimestamp: Option<int>, requested: seq<string>,
                   buffer: Option<seq<Entry>>): Response
  {
    var h := PromoteResumeHint(header, from, fromTimestamp, buffer);
    if AgedOut(h, buffer) then Gone
    else
      var topics := SubscriptionTopics(requested, h.replayAll);
      Stream(topics, if buffer.None? then [] else Snapshot(buffer.value, h.lastEventID, topics))
  }

  // ---------------------------------------------------------- resume by timestamp

  /** A suffix start that keeps everything recorded at or after `t`. */
  predicate KeepsAtOrAfter(s: seq<Entry>, t: int, k: nat) {
    k <= |s| && forall i :: 0 <= i < k ==> s[i].at < t
  }

  lemma SnapshotBehindCursor(s: seq<Entry>, cursor: string, topics: seq<string>)
    requires cursor != ""
    ensures Has(s, cursor) ==> Snapshot(s, cursor, topics) == Collect(s[FirstIndex(s, cursor) + 1..], topics)
  {
    var i := FirstIndex(s, cursor);
    assert i == |s| - 1 ==> s[i + 1..] == [];
  }

  lemma WholeSnapshot(s: seq<Entry>, requested: seq<string>)
    ensures var topics := SubscriptionTopics(requested, true);
            Snapshot(s, "", topics) == Collect(s[0..], topics)
  {
    assert SubscriptionTopics(requested, true)[1] == REPLAY_ALL;
    assert s[0..] == s;
  }

  /** Any buffer at all, clock running backwards or ids repeated: a ?from_timestamp=t
      connect is never 410, and it replays the visible part of a suffix in front of which
      everything predates `t`. So no visible event recorded at or after `t` is missed. */
  lemma FromTimestampMissesNothing(s: seq<Entry>, t: int, requested: seq<string>) returns (k: nat)
    requires NonEmptyIds(s)
    ensures KeepsAtOrAfter(s, t, k)
    ensures k == LastFirstCopy(s, PredatingPrefix(s, t)) + 1
    ensures var topics := SubscriptionTopics(requested, k == 0);
            Connect("", "", Some(t), requested, Some(s)) == Stream(topics, Collect(s[k..], topics))
  {
    var b := LastFirstCopy(s, PredatingPrefix(s, t));
    k := b + 1;
    if b < 0 {
      WholeSnapshot(s, requested);
    } else {
      assert IdBefore(s, t) == Some(s[b].id);
      CursorSnapshot(s, b, t, requested);
    }
  }

  lemma CursorSnapshot(s: seq<Entry>, b: nat, t: int, requested: seq<string>)
    requires b < |s| && FirstIndex(s, s[b].id) == b && s[b].id != "" && IdBefore(s, t) == Some(s[b].id)
    ensures var topics := SubscriptionTopics(requested, false);
            Connect("", "", Some(t), requested, Some(s)) == Stream(topics, Collect(s[b + 1..], topics))
  {
    SnapshotBehindCursor(s, s[b].id, SubscriptionTopics(requested, false));
  }

  function AtOrAfter(s: seq<Entry>, t: int): seq<Entry> {
    if s == [] then []
    else AtOrAfter(s[..|s| - 1], t) + (if t <= s[|s| - 1].at then [s[|s| - 1]] else [])
  }

  lemma {:induction false} AtOrAfterSkips(s: seq<Entry>, t: int, k: nat)
    requires KeepsAtOrAfter(s, t, k)
    ensures AtOrAfter(s, t) == AtOrAfter(s[k..], t)
    decreases |s|
  {
    if k < |s| {
      AtOrAfterSkips(s[..|s| - 1], t, k);
      assert s[k..][..|s| - k - 1] == s[..|s| - 1][k..];
    } else if s != [] {
      AtOrAfterSkips(s[..|s| - 1], t, k - 1);
      assert s[k..] == s[..|s| - 1][k - 1..];
    }
  }

  /** No entry that these topics can see predates `t`. */
  predicate NoneVisibleBefore(s: seq<Entry>, t: int, topics: seq<string>) {
    forall i :: 0 <= i < |s| && s[i].at < t ==> !TopicsIntersect(topics, s[i].topics)
  }

  lemma CollectAppend(s: seq<Entry>, e: Entry, topics: seq<string>)
    ensures Collect(s + [e], topics)
            == Collect(s, topics) + if TopicsIntersect(topics, e.topics) then [e.msg] else []
  {
    assert (s + [e])[..|s|] == s;
  }

  /** Leaving out what predates `t` leaves out nothing visible, or makes the list shorter. */
  lemma {:induction false} CollectAtOrAfter(s: seq<Entry>, t: int, topics: seq<string>)
    ensures if NoneVisibleBefore(s, t, topics) then Collect(AtOrAfter(s, t), topics) == Collect(s, topics)
            else |Collect(AtOrAfter(s, t), topics)| < |Collect(s, topics)|
  {
    if s != [] {
      var front, last := s[..|s| - 1], s[|s| - 1];
      CollectAtOrAfter(front, t, topics);
      CollectAppend(AtOrAfter(front, t), last, topics);
      assert AtOrAfter(s, t) == if t <= last.at then AtOrAfter(front, t) + [last] else AtOrAfter(front, t);
      LastVisible(s, t, topics);
    }
  }

  lemma LastVisible(s: seq<Entry>, t: int, topics: seq<string>)
    requires s != []
    ensures NoneVisibleBefore(s, t, topics)
            <==> NoneVisibleBefore(s[..|s| - 1], t, topics)
                 && (s[|s| - 1].at < t ==> !TopicsIntersect(topics, s[|s| - 1].topics))
  {
    assert s == s[..|s| - 1] + [s[|s| - 1]];
  }

  /** Exactly when a ?from_timestamp=t connect replays the visible events recorded at or
      after `t` and no others: when none that the topics can see, behind the cursor it
      resolves to, was recorded earlier. */
  lemma FromTimestampIsExactIff(s: seq<Entry>, t: int, requested: seq<string>)
    requires NonEmptyIds(s)
    ensures var k := LastFirstCopy(s, PredatingPrefix(s, t)) + 1;
            var topics := SubscriptionTopics(requested, k == 0);
            Connect("", "", Some(t), requested, Some(s)) == Stream(topics, Collect(AtOrAfter(s, t), topics))
            <==> NoneVisibleBefore(s[k..], t, topics)
  {
    var k := FromTimestampMissesNothing(s, t, requested);
    AtOrAfterSkips(s, t, k);
    CollectAtOrAfter(s[k..], t, SubscriptionTopics(requested, k == 0));
  }

  predicate NondecreasingTimes(s: seq<Entry>) {
    forall i, j :: 0 <= i < j < |s| ==> s[i].at <= s[j].at
  }

  lemma LastCopyIsLast(s: seq<Entry>, p: nat)
    requires UniqueIds(s) && p <= |s|
    ensures LastFirstCopy(s, p) == p - 1
  {
    if p > 0 {
      FirstIndexAt(s, s[p - 1].id, p - 1);
    }
  }

  /** With nondecreasing times and unique ids the replay is exactly the visible events
      recorded at or after `t`. */
  lemma FromTimestampIsExact(s: seq<Entry>, t: int, requested: seq<string>)
    requires NonEmptyIds(s) && NondecreasingTimes(s) && UniqueIds(s)
    ensures var topics := SubscriptionTopics(requested, PredatingPrefix(s, t) == 0);
            Connect("", "", Some(t), requested, Some(s)) == Stream(topics, Collect(AtOrAfter(s, t), topics))
  {
    var p := PredatingPrefix(s, t);
    LastCopyIsLast(s, p);
    NoneBeforeLater(s, t, p, SubscriptionTopics(requested, p == 0));
    FromTimestampIsExactIff(s, t, requested);
  }

  lemma NoneBeforeLater(s: seq<Entry>, t: int, p: nat, topics: seq<string>)
    requires p <= |s| && NondecreasingTimes(s) && (p < |s| ==> t <= s[p].at)
    ensures NoneVisibleBefore(s[p..], t, topics)
  {
    assert forall i :: 0 <= i < |s| - p ==> s[p..][i] == s[p + i];
  }

  /** Both hypotheses matter: a clock set back over-delivers an older event, */
  lemma BackwardClockOverDelivers(e: Entry, f: Entry)
    requires e == Entry("1", 20, 1, [BROADCAST]) && f == Entry("2", 10, 2, [BROADCAST])
    ensures Connect("", "", Some(15), [], Some([e, f])).replayed == [1, 2]
    ensures AtOrAfter([e, f], 15) == [e]
  {
    var k := FromTimestampMissesNothing([e, f], 15, []);
    assert SubscriptionTopics([], true)[2] == BROADCAST && BROADCAST in e.topics;
    BothVisible(e, f, SubscriptionTopics([], true));
    assert [e, f][0..] == [e, f] && [e, f][..1] == [e] && [e][..0] == [];
    assert AtOrAfter([e], 15) == [e];
  }

  lemma BothVisible(e: Entry, f: Entry, topics: seq<string>)
    requires TopicsIntersect(topics, e.topics) && TopicsIntersect(topics, f.topics)
    ensures Collect([e, f], topics) == [e.msg, f.msg] && Collect([f], topics) == [f.msg]
  {
    assert [e, f][..1] == [e] && [e][..0] == [] && [f][..0] == [];
    assert Collect([e], topics) == [e.msg];
  }

  /** and so does an id pushed twice before `t`: the second copy is no cursor of its own. */
  lemma RepeatedIdOverDelivers(e: Entry, f: Entry)
    requires e == Entry("1", 10, 1, [BROADCAST]) && f == Entry("1", 20, 2, [BROADCAST])
    ensures Connect("", "", Some(30), [], Some([e, f])).replayed == [2]
    ensures AtOrAfter([e, f], 30) == []
  {
    FirstIndexAt([e, f], "1", 0);
    var k := FromTimestampMissesNothing([e, f], 30, []);
    assert SubscriptionTopics([], false)[1] == BROADCAST && BROADCAST in e.topics;
    BothVisible(e, f, SubscriptionTopics([], false));
    assert [e, f][1..] == [f] && [e, f][..1] == [e] && [e][..0] == [];
    assert AtOrAfter([e], 30) == [];
  }

  // --------------------------------------------------------------- resume by cursor

  /** A named cursor is answered 410 exactly when no buffer holds it, and otherwise
      replays the visible events behind its first copy; the header beats ?from, and
      both beat ?from_timestamp. */
  lemma NamedCursor(header: string, from: string, fromTimestamp: Option<int>, requested: seq<string>,
                    buffer: Option<seq<Entry>>)
    requires header != "" || from != ""
    ensures var cursor := if header != "" then header else from;
            var topics := SubscriptionTopics(requested, false);
            Connect(header, from, fromTimestamp, requested, buffer)
            == if buffer.None? || !Has(buffer.value, cursor) then Gone
               else Stream(topics, Collect(buffer.value[FirstIndex(buffer.value, cursor) + 1..], topics))
  {
    if buffer.Some? {
      SnapshotBehindCursor(buffer.value, if header != "" then header else from,
                           SubscriptionTopics(requested, false));
    }
  }

  /** The end of CutResumeReconnectIsGone: whoever was cut short gets 410 from the
      handler when it reconnects with the position it was left at. */
  lemma CutResumeIsToldSo(s: seq<Entry>, cursor: string, requested: seq<string>,
                          buffers: nat -> seq<Entry>, fails: nat -> bool)
    requires NonEmptyIds(s) && UniqueIds(s) && After(s, cursor, SubscriptionTopics(requested, false)).Some?
    requires OnlyExpiries(s, buffers, |After(s, cursor, SubscriptionTopics(requested, false)).value|)
    ensures var topics := SubscriptionTopics(requested, false);
            var msgs := After(s, cursor, topics).value;
            var out := Send(buffers, true, msgs, fails, 0);
            && out.sent <= msgs
            && (!out.failed && out.sent != msgs ==>
                  var position := s[PositionFrom(s, FirstIndex(s, cursor), topics, |out.sent|)].id;
                  Connect(position, "", None, requested, Some(buffers(|msgs|))) == Gone)
  {
    CutResumeReconnectIsGone(s, cursor, SubscriptionTopics(requested, false), buffers, fails);
  }

  // ------------------------------------------------------------------ topic routing

  function PublishTopics(eventType: string): seq<string> {
    if eventType == ERROR_TYPE || eventType == OFFSET_ONLY_TYPE then [KEEP_ALIVE]
    else if eventType != "" then [BROADCAST, eventType]
    else [BROADCAST]
  }

  /** Publish as the replayer sees it: Put stores whatever carries an id. */
  function Published(cap: nat, s: seq<Entry>, eventType: string, id: string, at: int, msg: nat): seq<Entry>
    requires 1 <= cap
  {
    if id == "" then s else Push(cap, s, Entry(id, at, msg, PublishTopics(eventType)))
  }

  /** What validateEventTypes lets through, as far as routing depends on it. */
  predicate ValidEventTypes(requested: seq<string>) {
    forall t :: t in requested ==> t != "" && !InternalTopic(t)
  }

  /** Live and replayed delivery follow the filter exactly: a subscriber sees an event
      iff it is a stream-wide control signal, the subscriber has no filter, or the
      filter names the event's type. Event types come from a closed list that holds no
      internal topic name. */
  lemma DeliveryFollowsFilter(eventType: string, requested: seq<string>, replayAll: bool)
    requires ValidEventTypes(requested) && !InternalTopic(eventType)
    ensures TopicsIntersect(SubscriptionTopics(requested, replayAll), PublishTopics(eventType))
            <==> eventType == ERROR_TYPE || eventType == OFFSET_ONLY_TYPE
                 || requested == [] || eventType in requested
  {
    var sub, pub := SubscriptionTopics(requested, replayAll), PublishTopics(eventType);
    assert KEEP_ALIVE in sub;
    assert requested == [] ==> BROADCAST in sub;
    assert forall t :: t in sub <==>
        t == KEEP_ALIVE || (replayAll && t == REPLAY_ALL)
        || (if requested == [] then t == BROADCAST else t in requested);
    assert forall t :: t in pub ==> t == KEEP_ALIVE || t == BROADCAST || t == eventType;
    if eventType == ERROR_TYPE || eventType == OFFSET_ONLY_TYPE {
      assert KEEP_ALIVE in pub;
    } else {
      assert BROADCAST in pub;
      assert eventType != "" ==> eventType in pub;
    }
  }

  /** Why validateEventTypes refuses internal names: ?event_type=__broadcast__ would
      turn a filtered subscription into an unfiltered one. */
  lemma InternalNameWouldBypassFilter(eventType: string)
    requires eventType != ERROR_TYPE && eventType != OFFSET_ONLY_TYPE
    ensures TopicsIntersect(SubscriptionTopics([BROADCAST], false), PublishTopics(eventType))
  {
    var sub, pub := SubscriptionTopics([BROADCAST], false), PublishTopics(eventType);
    assert sub[1] == BROADCAST && pub[0] == BROADCAST;
    assert BROADCAST in sub && BROADCAST in pub;
  }

  lemma CollectHas(s: seq<Entry>, topics: seq<string>, k: nat)
    requires k < |s| && forall i :: 0 <= i < |s| && s[i].msg == s[k].msg ==> i == k
    ensures s[k].msg in Collect(s, topics) <==> TopicsIntersect(topics, s[k].topics)
  {
    PositionsOfCollect(s, topics);
    var pos := Positions(s, topics);
    if TopicsIntersect(topics, s[k].topics) {
      var n :| 0 <= n < |pos| && pos[n] == k;
      assert Collect(s, topics)[n] == s[k].msg;
    }
  }

  lemma NoneCollected(s: seq<Entry>, topics: seq<string>, msg: nat)
    requires !HasMsg(s, msg)
    ensures msg !in Collect(s, topics)
  {
    PositionsOfCollect(s, topics);
  }

  /** Who gets an event replayed after all: a subscriber that resumes from any other held
      cursor sees it exactly if it carries an id and the filter lets it through. That goes
      for error frames too, which the comments call never stored. */
  lemma ReplayedIffIdentified(cap: nat, s: seq<Entry>, eventType: string, id: string, at: int, msg: nat,
                              cursor: string, requested: seq<string>)
    requires 1 <= cap && |s| <= cap && !HasMsg(s, msg)
    requires ValidEventTypes(requested) && !InternalTopic(eventType)
    requires cursor != "" && cursor != id && Has(Published(cap, s, eventType, id, at, msg), cursor)
    ensures var r := Connect(cursor, "", None, requested, Some(Published(cap, s, eventType, id, at, msg)));
            && r.Stream?
            && (msg in r.replayed
                <==> id != "" && (eventType == ERROR_TYPE || eventType == OFFSET_ONLY_TYPE
                                  || requested == [] || eventType in requested))
  {
    var b := Published(cap, s, eventType, id, at, msg);
    var topics := SubscriptionTopics(requested, false);
    var c := FirstIndex(b, cursor);
    NamedCursor(cursor, "", None, requested, Some(b));
    DeliveryFollowsFilter(eventType, requested, false);
    if id == "" {
      NoneCollected(b[c + 1..], topics, msg);
    } else {
      assert c < |b| - 1;
      LastOfPush(cap, s, Entry(id, at, msg, PublishTopics(eventType)), c + 1);
      CollectHas(b[c + 1..], topics, |b| - c - 2);
    }
  }

  lemma LastOfPush(cap: nat, s: seq<Entry>, e: Entry, k: nat)
    requires 1 <= cap && |s| <= cap && !HasMsg(s, e.msg) && k < |Push(cap, s, e)|
    ensures var t := Push(cap, s, e)[k..];
            t[|t| - 1] == e && forall i :: 0 <= i < |t| && t[i].msg == e.msg ==> i == |t| - 1
  {
    var b, kept := Push(cap, s, e), if |s| == cap then s[1..] else s;
    assert forall i :: 0 <= i < |kept| ==> kept[i] in s;
    assert b == kept + [e];
  }

  /** A plain connect joins live: without a cursor or a timestamp nothing is replayed, and a
      timestamp means nothing to a hub that buffers nothing. */
  lemma PlainConnectJoinsLive(fromTimestamp: Option<int>, requested: seq<string>, buffer: Option<seq<Entry>>)
    requires ValidEventTypes(requested) && (fromTimestamp.None? || buffer.None?)
    ensures Connect("", "", fromTimestamp, requested, buffer) == Stream(SubscriptionTopics(requested, false), [])
  {
    assert REPLAY_ALL !in SubscriptionTopics(requested, false);
  }
}
