/** What became of every event that arrived, kept beside the queue to account for it. */
module EventFates {
  import opened Bytes
  import opened Events
  import opened Correlate
  import opened Tallies
  import opened ResizeQueue

  // An event is kept (delivered or still queued), answered the id it names, gave way to a later resize,
  // or was discarded by the ESC deadline that is the input it names.
  datatype Fate = Kept | Answered(id: nat, reply: Reply) | Superseded | Lost(input: nat)

  /** The kept events, in order. */
  function Select(events: seq<Event>, fates: seq<Fate>): (kept: seq<Event>)
    requires |events| == |fates|
    ensures |kept| <= |events|
  {
    if events == [] then []
    else (if fates[0].Kept? then [events[0]] else []) + Select(events[1..], fates[1..])
  }

  ghost predicate LegalFate(e: Event, fate: Fate, later: seq<Event>, asked: seq<Expectation>) {
    match fate
    case Kept => true
    case Answered(id, reply) => Replies(asked, id, reply, e)
    case Superseded => e.Resize? && HasResize(later)
    case Lost(_) => e == REPLACEMENT_KEY
  }

  /** Only the reply to an id's own expectation answers it, only a resize with a later one gives way, and
      only a replacement character is discarded. */
  ghost predicate Legal(events: seq<Event>, fates: seq<Fate>, asked: seq<Expectation>)
    decreases |events|
  {
    && |events| == |fates|
    && (events == [] || (
          && LegalFate(events[0], fates[0], events[1..], asked)
          && Legal(events[1..], fates[1..], asked)))
  }

  /** How often each id is answered. */
  function AnsweredIds(fates: seq<Fate>): multiset<nat>
    decreases |fates|
  {
    if fates == [] then multiset{}
    else (if fates[0].Answered? then multiset{fates[0].id} else multiset{}) + AnsweredIds(fates[1..])
  }

  /** How many events answered. */
  function AnswerCount(fates: seq<Fate>): nat
    decreases |fates|
  {
    if fates == [] then 0 else (if fates[0].Answered? then 1 else 0) + AnswerCount(fates[1..])
  }

  lemma {:induction false} AnswersAreCounted(fates: seq<Fate>)
    ensures |AnsweredIds(fates)| == AnswerCount(fates)
    decreases |fates|
  {
    if fates != [] { AnswersAreCounted(fates[1..]); }
  }

  lemma {:induction false} AnsweredIsCounted(fates: seq<Fate>, i: nat)
    requires i < |fates| && fates[i].Answered?
    ensures AnsweredIds(fates)[fates[i].id] > 0
    decreases |fates|
  {
    if i > 0 { AnsweredIsCounted(fates[1..], i - 1); }
  }

  lemma {:induction false} AnsweredIdsAppend(a: seq<Fate>, b: seq<Fate>)
    ensures AnsweredIds(a + b) == AnsweredIds(a) + AnsweredIds(b)
    decreases |a|
  {
    if a == [] {
      assert a + b == b;
    } else {
      assert (a + b)[1..] == a[1..] + b && (a + b)[0] == a[0];
      AnsweredIdsAppend(a[1..], b);
    }
  }

  lemma {:induction false} KeptAnswersNothing(n: nat)
    ensures AnsweredIds(AllKept(n)) == multiset{}
    decreases n
  {
    if n > 0 {
      assert AllKept(n)[1..] == AllKept(n - 1);
      KeptAnswersNothing(n - 1);
    }
  }

  predicate LosesNothing(fates: seq<Fate>) { forall i :: 0 <= i < |fates| ==> !fates[i].Lost? }

  /** Expectations asked later leave legal fates legal. */
  lemma {:induction false} LegalWhenAskedMore(
      events: seq<Event>, fates: seq<Fate>, asked: seq<Expectation>, more: seq<Expectation>)
    requires Legal(events, fates, asked)
    ensures Legal(events, fates, asked + more)
    decreases |events|
  {
    hide HasResize;
    if events != [] { LegalWhenAskedMore(events[1..], fates[1..], asked, more); }
  }

  function AllKept(n: nat): (fates: seq<Fate>)
    ensures |fates| == n
  {
    seq(n, _ => Kept)
  }

  /** `fates` with those of the kept events after the first `skip` replaced by `flags`. */
  function Refine(fates: seq<Fate>, skip: nat, flags: seq<Fate>): (r: seq<Fate>)
    ensures |r| == |fates|
    decreases |fates|
  {
    if fates == [] then []
    else if !fates[0].Kept? then [fates[0]] + Refine(fates[1..], skip, flags)
    else if skip > 0 then [Kept] + Refine(fates[1..], skip - 1, flags)
    else if flags != [] then [flags[0]] + Refine(fates[1..], 0, flags[1..])
    else fates
  }

  /** What is kept after refining: the skipped events, then the kept ones of the rest. */
  lemma {:induction false} SelectRefined(events: seq<Event>, fates: seq<Fate>, skip: nat, flags: seq<Fate>)
    requires |events| == |fates| && |Select(events, fates)| == skip + |flags|
    ensures var kept := Select(events, fates);
      Select(events, Refine(fates, skip, flags)) == kept[..skip] + Select(kept[skip..], flags)
    decreases |events|
  {
    hide Select;
    if events != [] {
      var rest := Select(events[1..], fates[1..]);
      SelectHead(events, fates, fates[0], fates[1..]);
      if !fates[0].Kept? {
        SelectRefined(events[1..], fates[1..], skip, flags);
        SelectHead(events, Refine(fates, skip, flags), fates[0], Refine(fates[1..], skip, flags));
        DropNothing(rest, skip, flags);
      } else if skip > 0 {
        SelectRefined(events[1..], fates[1..], skip - 1, flags);
        SelectHead(events, Refine(fates, skip, flags), Kept, Refine(fates[1..], skip - 1, flags));
        SkipFirst(events[0], rest, skip, flags);
      } else {
        SelectRefined(events[1..], fates[1..], 0, flags[1..]);
        SelectHead(events, Refine(fates, 0, flags), flags[0], Refine(fates[1..], 0, flags[1..]));
        FlagFirst(events[0], rest, flags);
      }
    } else {
      SelectNone();
    }
  }

  lemma SelectNone()
    ensures Select([], []) == []
  {
  }

  lemma DropNothing(rest: seq<Event>, skip: nat, flags: seq<Fate>)
    requires |rest| == skip + |flags|
    ensures [] + (rest[..skip] + Select(rest[skip..], flags))
      == ([] + rest)[..skip] + Select(([] + rest)[skip..], flags)
  {
    assert [] + rest == rest;
  }

  lemma SkipFirst(e: Event, rest: seq<Event>, skip: nat, flags: seq<Fate>)
    requires skip > 0 && |rest| + 1 == skip + |flags|
    ensures var kept := [e] + rest;
      [e] + (rest[..skip - 1] + Select(rest[skip - 1..], flags)) == kept[..skip] + Select(kept[skip..], flags)
  {
    var kept := [e] + rest;
    assert kept[..skip] == [e] + rest[..skip - 1] && kept[skip..] == rest[skip - 1..];
    Associate([e], rest[..skip - 1], Select(rest[skip - 1..], flags));
  }

  lemma FlagFirst(e: Event, rest: seq<Event>, flags: seq<Fate>)
    requires flags != [] && |rest| + 1 == |flags|
    ensures var kept := [e] + rest;
      (if flags[0].Kept? then [e] else []) + (rest[..0] + Select(rest[0..], flags[1..]))
        == kept[..0] + Select(kept[0..], flags)
  {
    hide Select;
    var kept := [e] + rest;
    assert kept[0..] == kept && kept[1..] == rest && rest[0..] == rest && rest[..0] == [] && kept[..0] == [];
    SelectHead(kept, flags, flags[0], flags[1..]);
  }

  lemma SelectHead(events: seq<Event>, fates: seq<Fate>, first: Fate, rest: seq<Fate>)
    requires events != [] && |events| == |fates| && fates[0] == first && fates[1..] == rest
    ensures Select(events, fates) == (if first.Kept? then [events[0]] else []) + Select(events[1..], rest)
  {
  }

  lemma {:induction false} SelectSubset(events: seq<Event>, fates: seq<Fate>)
    requires |events| == |fates|
    ensures HasResize(Select(events, fates)) ==> HasResize(events)
    decreases |events|
  {
    if events != [] && HasResize(Select(events, fates)) {
      var kept := Select(events, fates);
      var rest := Select(events[1..], fates[1..]);
      var i :| 0 <= i < |kept| && kept[i].Resize?;
      if fates[0].Kept? && i == 0 {
        assert events[0].Resize?;
      } else {
        assert rest[if fates[0].Kept? then i - 1 else i].Resize?;
        SelectSubset(events[1..], fates[1..]);
        var k :| 0 <= k < |events[1..]| && events[1..][k].Resize?;
        assert events[k + 1].Resize?;
      }
    }
  }

  /** Refining legal fates by legal ones is legal. */
  lemma {:induction false} RefinedIsLegal(
      events: seq<Event>, fates: seq<Fate>, skip: nat, flags: seq<Fate>, asked: seq<Expectation>)
    requires |events| == |fates|
    requires Legal(events, fates, asked) && |Select(events, fates)| == skip + |flags|
    requires Legal(Select(events, fates)[skip..], flags, asked)
    ensures Legal(events, Refine(fates, skip, flags), asked)
    decreases |events|
  {
    hide Replies, HasResize;
    if events != [] {
      var kept := Select(events, fates);
      var rest := Select(events[1..], fates[1..]);
      SelectSubset(events[1..], fates[1..]);
      if !fates[0].Kept? {
        assert kept == rest;
        RefinedIsLegal(events[1..], fates[1..], skip, flags, asked);
      } else {
        assert kept[1..] == rest;
        if skip > 0 {
          assert kept[skip..] == rest[skip - 1..];
          RefinedIsLegal(events[1..], fates[1..], skip - 1, flags, asked);
        } else {
          assert kept[0..] == kept && rest[0..] == rest;
          RefinedIsLegal(events[1..], fates[1..], 0, flags[1..], asked);
        }
      }
    }
  }

  lemma {:induction false} SelectAppend(a: seq<Event>, f: seq<Fate>, b: seq<Event>, g: seq<Fate>)
    requires |a| == |f| && |b| == |g|
    ensures Select(a + b, f + g) == Select(a, f) + Select(b, g)
    decreases |a|
  {
    if a == [] {
      assert a + b == b && f + g == g;
    } else {
      assert (a + b)[1..] == a[1..] + b && (a + b)[0] == a[0];
      assert (f + g)[1..] == f[1..] + g && (f + g)[0] == f[0];
      SelectAppend(a[1..], f[1..], b, g);
      Associate(if f[0].Kept? then [a[0]] else [], Select(a[1..], f[1..]), Select(b, g));
    }
  }

  lemma {:induction false} SelectAll(events: seq<Event>)
    ensures Select(events, AllKept(|events|)) == events
    decreases |events|
  {
    if events != [] {
      assert AllKept(|events|)[1..] == AllKept(|events[1..]|);
      SelectAll(events[1..]);
    }
  }

  lemma {:induction false} AllKeptIsLegal(events: seq<Event>, asked: seq<Expectation>)
    ensures Legal(events, AllKept(|events|), asked)
    decreases |events|
  {
    if events != [] {
      assert AllKept(|events|)[1..] == AllKept(|events[1..]|);
      AllKeptIsLegal(events[1..], asked);
    }
  }

  /** Events that arrive later leave earlier fates legal. */
  lemma {:induction false} LegalAppend(
      a: seq<Event>, f: seq<Fate>, b: seq<Event>, g: seq<Fate>, asked: seq<Expectation>)
    requires Legal(a, f, asked) && Legal(b, g, asked)
    ensures Legal(a + b, f + g, asked)
    decreases |a|
  {
    hide Replies;
    if a == [] {
      assert a + b == b && f + g == g;
    } else {
      assert (a + b)[1..] == a[1..] + b && (f + g)[1..] == f[1..] + g;
      LegalAppend(a[1..], f[1..], b, g, asked);
      HasResizeAppend(a[1..], b);
    }
  }

  lemma HasResizeAppend(a: seq<Event>, b: seq<Event>)
    ensures HasResize(a) ==> HasResize(a + b)
  {
    if HasResize(a) {
      var i :| 0 <= i < |a| && a[i].Resize?;
      assert (a + b)[i].Resize?;
    }
  }

  /** Passing over the superseded front of a queue. */
  function SkipFront(q: seq<Event>): (flags: seq<Fate>)
    ensures |flags| == |q|
    decreases |q|
  {
    if q == [] then []
    else if q[0].Resize? && HasResize(q[1..]) then [Superseded] + SkipFront(q[1..])
    else AllKept(|q|)
  }

  lemma SupersededFirst(q: seq<Event>, flags: seq<Fate>, asked: seq<Expectation>)
    requires q != [] && |flags| + 1 == |q| && q[0].Resize? && HasResize(q[1..])
    requires Legal(q[1..], flags, asked) && AnsweredIds(flags) == multiset{} && LosesNothing(flags)
    ensures var all := [Superseded] + flags;
      && Legal(q, all, asked) && Select(q, all) == Select(q[1..], flags)
      && AnsweredIds(all) == multiset{} && LosesNothing(all)
  {
    hide Replies, HasResize;
    var all := [Superseded] + flags;
    assert all[1..] == flags && [] + Select(q[1..], flags) == Select(q[1..], flags);
  }

  lemma KeptLosesNothing(n: nat)
    ensures LosesNothing(AllKept(n))
  {
  }

  lemma NothingSkipped(q: seq<Event>)
    requires q == [] || !(q[0].Resize? && HasResize(q[1..]))
    ensures SkipFront(q) == AllKept(|q|) && Skipped(q) == 0
  {
    hide HasResize;
  }

  lemma {:induction false} SkipFrontIsLegal(q: seq<Event>, asked: seq<Expectation>)
    ensures Legal(q, SkipFront(q), asked) && Select(q, SkipFront(q)) == q[Skipped(q)..]
    ensures AnsweredIds(SkipFront(q)) == multiset{} && LosesNothing(SkipFront(q))
    decreases |q|
  {
    hide Replies, HasResize, Legal, Select, AnsweredIds;
    if q != [] && q[0].Resize? && HasResize(q[1..]) {
      SkipFrontIsLegal(q[1..], asked);
      SupersededFirst(q, SkipFront(q[1..]), asked);
      assert q[1..][Skipped(q[1..])..] == q[Skipped(q)..];
    } else {
      SelectAll(q);
      AllKeptIsLegal(q, asked);
      KeptAnswersNothing(|q|);
      KeptLosesNothing(|q|);
      NothingSkipped(q);
      assert q[0..] == q;
    }
  }

  // ----- Refining, seen fate by fate -----

  /** Refining adds the answers of the flags and takes none away. */
  lemma {:induction false} RefinedAnswers(events: seq<Event>, fates: seq<Fate>, skip: nat, flags: seq<Fate>)
    requires |events| == |fates| && |Select(events, fates)| == skip + |flags|
    ensures AnsweredIds(Refine(fates, skip, flags)) == AnsweredIds(fates) + AnsweredIds(flags)
    decreases |fates|
  {
    if fates != [] {
      var rest := Select(events[1..], fates[1..]);
      if !fates[0].Kept? {
        RefinedAnswers(events[1..], fates[1..], skip, flags);
        AnswersOfFirst(Refine(fates, skip, flags), fates[0], Refine(fates[1..], skip, flags));
      } else if skip > 0 {
        RefinedAnswers(events[1..], fates[1..], skip - 1, flags);
        AnswersOfFirst(Refine(fates, skip, flags), Kept, Refine(fates[1..], skip - 1, flags));
      } else {
        RefinedAnswers(events[1..], fates[1..], 0, flags[1..]);
        AnswersOfFirst(Refine(fates, 0, flags), flags[0], Refine(fates[1..], 0, flags[1..]));
      }
    }
  }

  lemma AnswersOfFirst(fates: seq<Fate>, first: Fate, rest: seq<Fate>)
    requires fates == [first] + rest
    ensures AnsweredIds(fates) == (if first.Answered? then multiset{first.id} else multiset{}) + AnsweredIds(rest)
  {
    assert fates[1..] == rest;
  }

  /** Refining changes kept events only, and loses only what the flags lose. */
  lemma {:induction false} RefinedFates(fates: seq<Fate>, skip: nat, flags: seq<Fate>, i: nat)
    requires i < |fates| && LosesNothing(flags)
    ensures var f := Refine(fates, skip, flags)[i];
      && (!fates[i].Kept? ==> f == fates[i])
      && (f.Lost? ==> f == fates[i])
    decreases |fates|
  {
    if i > 0 {
      if !fates[0].Kept? {
        RefinedFates(fates[1..], skip, flags, i - 1);
      } else if skip > 0 {
        RefinedFates(fates[1..], skip - 1, flags, i - 1);
      } else if flags != [] {
        assert LosesNothing(flags[1..]);
        RefinedFates(fates[1..], 0, flags[1..], i - 1);
      }
    }
  }

  /** Every flag becomes some kept event's fate. */
  lemma {:induction false} FlagsAreRefined(events: seq<Event>, fates: seq<Fate>, skip: nat, flags: seq<Fate>, f: Fate)
    requires |events| == |fates| && |Select(events, fates)| == skip + |flags| && f in flags
    ensures f in Refine(fates, skip, flags)
    decreases |fates|
  {
    var rest := Select(events[1..], fates[1..]);
    if !fates[0].Kept? {
      FlagsAreRefined(events[1..], fates[1..], skip, flags, f);
    } else if skip > 0 {
      FlagsAreRefined(events[1..], fates[1..], skip - 1, flags, f);
    } else if f != flags[0] {
      FlagsAreRefined(events[1..], fates[1..], 0, flags[1..], f);
    }
  }
}
