/** What feeding events to the correlator does to their fates and to the ids that wait. */
module EventFeeds {
  import opened Events
  import opened Correlate
  import opened CorrelatorTable
  import opened CorrelatorRuns
  import opened Answers
  import opened Tallies
  import opened EventFates
  import opened Probe

  /** What the feeds of the asynchronous session have in common: from `t` to `u`, the flags are legal,
      and they answer only ids that waited, once, and that wait no more. */
  ghost predicate Feeds(t: Table, u: Table, events: seq<Event>, flags: seq<Fate>, asked: seq<Expectation>) {
    && Narrows(t, u)
    && Legal(events, flags, asked) && LosesNothing(flags)
    && forall k: nat ::
         && AnsweredIds(flags)[k] <= 1
         && (AnsweredIds(flags)[k] > 0 ==> Waiting(t, k) && !Waiting(u, k))
  }

  lemma FeedsNothing(t: Table, asked: seq<Expectation>)
    requires Valid(t)
    ensures Feeds(t, t, [], [], asked)
  {
    hide Valid, SlotFor;
    NarrowsSelf(t);
  }

  /** Leaving events unfed. */
  lemma FeedsNoMore(t: Table, events: seq<Event>, asked: seq<Expectation>)
    requires Valid(t)
    ensures Feeds(t, t, events, AllKept(|events|), asked)
  {
    hide Valid, SlotFor, AllKept;
    NarrowsSelf(t);
    AllKeptIsLegal(events, asked);
    KeptAnswersNothing(|events|);
    KeptLosesNothing(|events|);
  }

  /** An event passed through, and then the rest. */
  lemma FeedsKept(t: Table, u: Table, e: Event, rest: seq<Event>, flags: seq<Fate>, asked: seq<Expectation>)
    requires Feeds(t, u, rest, flags, asked)
    ensures Feeds(t, u, [e] + rest, [Kept] + flags, asked)
  {
    hide Narrows, Waiting, LegalFate;
    var events, all := [e] + rest, [Kept] + flags;
    assert events[1..] == rest && all[1..] == flags;
    assert LegalFate(e, Kept, rest, asked) by { KeptIsLegal(e, rest, asked); }
    assert AnsweredIds(all) == AnsweredIds(flags);
  }

  lemma KeptIsLegal(e: Event, rest: seq<Event>, asked: seq<Expectation>)
    ensures LegalFate(e, Kept, rest, asked)
  {
  }

  /** An event that completed an id, and then the rest, fed to what the completion left. */
  lemma FeedsAnswered(
      t: Table, next: Table, u: Table, e: Event, rest: seq<Event>, flags: seq<Fate>, asked: seq<Expectation>)
    requires Valid(t) && Tagged(t, asked) && FeedEvent(t, e).1.Completed?
    requires Narrows(FeedEvent(t, e).0, next) && Feeds(next, u, rest, flags, asked)
    ensures var r := FeedEvent(t, e).1; Feeds(t, u, [e] + rest, [Answered(r.id, r.reply)] + flags, asked)
  {
    hide SlotFor, Valid, FeedEvent, Match;
    var (fed, r) := FeedEvent(t, e);
    var f := Answered(r.id, r.reply);
    var events, all := [e] + rest, [f] + flags;
    assert events[1..] == rest && all[1..] == flags;
    CompletedReplies(t, e, asked);
    EventNarrows(t, e);
    NarrowsThen(t, fed, next);
    NarrowsThen(t, next, u);
    assert AnsweredIds(all) == multiset{r.id} + AnsweredIds(flags);
    forall k: nat
      ensures AnsweredIds(all)[k] <= 1 && (AnsweredIds(all)[k] > 0 ==> Waiting(t, k) && !Waiting(u, k))
    {
      NarrowsAt(t, fed, k);
      NarrowsAt(fed, next, k);
      NarrowsAt(next, u, k);
    }
  }

  lemma {:induction false} BatchFeeds(
      t: Table, b: Bundle, events: seq<Event>, caps: Capabilities, asked: seq<Expectation>)
    requires Valid(t) && Tagged(t, asked)
    ensures var r := FeedBatch(t, b, events, caps); Feeds(t, r.table, events, r.flags, asked)
    decreases |events|
  {
    hide Feeds, FeedEvent, TakeReply, Valid, Tagged, StoreBundleReply;
    if events == [] {
      FeedsNothing(t, asked);
    } else {
      var e, rest := events[0], events[1..];
      assert events == [e] + rest;
      var (fed, r) := FeedEvent(t, e);
      EventNarrows(t, e);
      FeedKeepsValid(t, e);
      NarrowedTag(t, fed, asked);
      if r.Passthrough? {
        PassthroughLeaves(t, e);
        BatchFeeds(fed, b, rest, caps, asked);
        var more := FeedBatch(fed, b, rest, caps);
        FeedsKept(t, more.table, e, rest, more.flags, asked);
      } else {
        CompletionHasReply(t, e);
        var taken := TakeReply(fed, r.id).0;
        TakeNarrows(fed, r.id);
        NarrowedTag(fed, taken, asked);
        var stored := StoreBundleReply(b, r.id, r.reply, caps);
        BatchFeeds(taken, b, rest, stored, asked);
        var more := FeedBatch(taken, b, rest, stored);
        FeedsAnswered(t, taken, more.table, e, rest, more.flags, asked);
      }
    }
  }
}
