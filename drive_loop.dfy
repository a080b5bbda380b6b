/** The drive loop as a reference definition: the rounds of a run (one search
    call each, followed by that page's block requests), the outcome it ends
    with, and the trace of outbound calls it makes. */
module DriveLoop {
  import opened Pages
  import opened Blocking

  /** How a run ends: the search ceiling was passed, a page came back empty,
      or an exception reached the handler. */
  datatype Outcome = LimitReached | NoData | Failed

  /** One outbound request: a search with its `max_id`, or a block request. */
  datatype Call = Search(maxId: int) | Block(screenName: string)

  /** One pass of the loop that got as far as the search call: the cursor
      sent as `max_id`, the reply, the names a block request was issued for,
      and whether an exception ended the run in this round. */
  datatype Round = Round(cursor: int, reply: FetchResult, blocked: seq<string>, raised: bool)

  datatype Run = Run(outcome: Outcome, rounds: seq<Round>)

  /** How many more searches the ceiling allows when the counter is at `i`:
      a search happens while `i <= limit`. */
  function Remaining(limit: int, i: nat): nat {
    if limit + 1 - i < 0 then 0 else limit + 1 - i
  }

  /** The run from counter `i` and cursor `cursor`, when `nf` searches and
      `nb` block requests were issued before. */
  function Drive(search: SearchOracle, block: BlockOracle, limit: int,
                 i: nat, cursor: int, nf: nat, nb: nat): Run
    decreases Remaining(limit, i)
  {
    if i > limit then Run(LimitReached, [])
    else
      match search(nf, cursor)
      case FetchFailed => Run(Failed, [Round(cursor, FetchFailed, [], true)])
      case Page(ps) =>
        if ps == [] then Run(NoData, [Round(cursor, Page([]), [], false)])
        else
          var b := BlockAll(block, nb, ScreenNames(ps));
          if !b.ok then Run(Failed, [Round(cursor, Page(ps), b.issued, true)])
          else
            var rest := Drive(search, block, limit, i + 1, CursorAfter(ps, cursor), nf + 1, nb + |b.issued|);
            Run(rest.outcome, [Round(cursor, Page(ps), b.issued, false)] + rest.rounds)
  }

  /** The run as the tool starts it: counter 0 and cursor 0. */
  function Start(search: SearchOracle, block: BlockOracle, limit: int, nf: nat, nb: nat): Run {
    Drive(search, block, limit, 0, 0, nf, nb)
  }

  /** A round that went through: a non-empty page, and a block request for
      every screen name on it that returned. */
  predicate Complete(r: Round) {
    NonEmptyPage(r.reply) && !r.raised && r.blocked == ScreenNames(r.reply.posts)
  }

  function Last(rs: seq<Round>): Round
    requires rs != []
  {
    rs[|rs| - 1]
  }

  /** The number of block requests issued in the given rounds. */
  function BlockedCount(rs: seq<Round>): nat {
    if rs == [] then 0 else |rs[0].blocked| + BlockedCount(rs[1..])
  }

  // ---------------------------------------------------------------------
  // The trace of outbound calls

  function BlockCalls(names: seq<string>): seq<Call> {
    if names == [] then [] else [Block(names[0])] + BlockCalls(names[1..])
  }

  /** The block requests for two lists are those of the first, then those of
      the second. */
  lemma {:induction false} BlockCallsAppend(a: seq<string>, b: seq<string>)
    ensures BlockCalls(a + b) == BlockCalls(a) + BlockCalls(b)
  {
    if a != [] {
      assert (a + b)[0] == a[0] && (a + b)[1..] == a[1..] + b;
      BlockCallsAppend(a[1..], b);
      assert BlockCalls(a + b) == [Block(a[0])] + (BlockCalls(a[1..]) + BlockCalls(b));
    } else {
      assert a + b == b;
    }
  }

  /** The block requests for the first `k + 1` names, after the calls `pre`. */
  lemma BlockCallsSnoc(pre: seq<Call>, names: seq<string>, k: nat)
    requires k < |names|
    ensures pre + BlockCalls(names[..k + 1]) == (pre + BlockCalls(names[..k])) + [Block(names[k])]
  {
    assert names[..k + 1] == names[..k] + [names[k]];
    BlockCallsAppend(names[..k], [names[k]]);
    assert BlockCalls([names[k]]) == [Block(names[k])];
  }

  function RoundCalls(r: Round): seq<Call> {
    [Search(r.cursor)] + BlockCalls(r.blocked)
  }

  /** The calls of the given rounds, in the order they are made. */
  function Flatten(rs: seq<Round>): seq<Call> {
    if rs == [] then [] else RoundCalls(rs[0]) + Flatten(rs[1..])
  }

  /** The `max_id`s of the search calls of a trace, in order. */
  function SearchCursors(cs: seq<Call>): seq<int> {
    if cs == [] then []
    else if cs[0].Search? then [cs[0].maxId] + SearchCursors(cs[1..])
    else SearchCursors(cs[1..])
  }

  /** The screen names of the block requests of a trace, in order. */
  function BlockedNames(cs: seq<Call>): seq<string> {
    if cs == [] then []
    else if cs[0].Block? then [cs[0].screenName] + BlockedNames(cs[1..])
    else BlockedNames(cs[1..])
  }

  function Cursors(rs: seq<Round>): seq<int> {
    if rs == [] then [] else [rs[0].cursor] + Cursors(rs[1..])
  }

  function AllBlocked(rs: seq<Round>): seq<string> {
    if rs == [] then [] else rs[0].blocked + AllBlocked(rs[1..])
  }

  /** The trace and the block count of rounds run one after the other are
      those of the parts, one after the other. */
  lemma {:induction false} TraceAppend(a: seq<Round>, b: seq<Round>)
    ensures Flatten(a + b) == Flatten(a) + Flatten(b)
  {
    if a == [] {
      assert a + b == b;
    } else {
      var ab := a + b;
      assert ab[0] == a[0] && ab[1..] == a[1..] + b;
      TraceAppend(a[1..], b);
      var head := RoundCalls(a[0]);
      calc {
        Flatten(ab);
        head + Flatten(a[1..] + b);
        head + (Flatten(a[1..]) + Flatten(b));
        (head + Flatten(a[1..])) + Flatten(b);
        Flatten(a) + Flatten(b);
      }
    }
  }

  lemma {:induction false} BlockedCountAppend(a: seq<Round>, b: seq<Round>)
    ensures BlockedCount(a + b) == BlockedCount(a) + BlockedCount(b)
  {
    if a == [] {
      assert a + b == b;
    } else {
      var ab := a + b;
      assert ab[0] == a[0] && ab[1..] == a[1..] + b;
      BlockedCountAppend(a[1..], b);
    }
  }

  /** The calls made by `done` and then by one more round, after the calls
      `pre`. */
  lemma TraceThenRound(pre: seq<Call>, done: seq<Round>, round: Round)
    ensures pre + Flatten(done + [round]) == (pre + Flatten(done)) + RoundCalls(round)
    ensures BlockedCount(done + [round]) == BlockedCount(done) + |round.blocked|
  {
    TraceAppend(done, [round]);
    BlockedCountAppend(done, [round]);
    OneRoundTrace(round);
  }

  /** A run split after `done` and again after one more round. */
  lemma RunThenRound(whole: Run, rest: Run, next: Run, done: seq<Round>, round: Round)
    requires whole == Run(rest.outcome, done + rest.rounds)
    requires rest == Run(next.outcome, [round] + next.rounds)
    ensures whole == Run(next.outcome, (done + [round]) + next.rounds)
  {
    assert (done + [round]) + next.rounds == done + ([round] + next.rounds);
  }

  /** The calls of a single round: its search, then its block requests. */
  lemma OneRoundTrace(r: Round)
    ensures Flatten([r]) == [Search(r.cursor)] + BlockCalls(r.blocked)
    ensures BlockedCount([r]) == |r.blocked|
  {
    assert [r][1..] == [];
  }

  /** One step of the run where it stops without a page to block: the
      ceiling is passed, the search raises, or the page is empty. */
  lemma DriveStops(search: SearchOracle, block: BlockOracle, limit: int,
                   i: nat, cursor: int, nf: nat, nb: nat)
    requires i > limit || !NonEmptyPage(search(nf, cursor))
    ensures Drive(search, block, limit, i, cursor, nf, nb) ==
      if i > limit then Run(LimitReached, [])
      else if search(nf, cursor).FetchFailed? then Run(Failed, [Round(cursor, FetchFailed, [], true)])
      else Run(NoData, [Round(cursor, Page([]), [], false)])
  {
  }

  /** One step of the run on a non-empty page: the round of that page, then,
      when its batch completes, the rest of the run from the next cursor. */
  lemma DriveOnPage(search: SearchOracle, block: BlockOracle, limit: int,
                    i: nat, cursor: int, nf: nat, nb: nat, ps: seq<Post>, b: BlockRun)
    requires i <= limit && search(nf, cursor) == Page(ps) && ps != []
    requires b == BlockAll(block, nb, ScreenNames(ps))
    ensures Drive(search, block, limit, i, cursor, nf, nb) ==
      if !b.ok then Run(Failed, [Round(cursor, Page(ps), b.issued, true)])
      else
        var next := Drive(search, block, limit, i + 1, CursorAfter(ps, cursor), nf + 1, nb + |b.issued|);
        Run(next.outcome, [Round(cursor, Page(ps), b.issued, false)] + next.rounds)
  {
  }

  // ---------------------------------------------------------------------
  // The ceiling

  /** A run makes at most one search per value of the counter up to the
      ceiling; it makes at least one while the ceiling allows; and it ends
      with LimitReached only after using up every search the ceiling allows. */
  lemma {:induction false} DriveBounded(search: SearchOracle, block: BlockOracle, limit: int,
                                        i: nat, cursor: int, nf: nat, nb: nat)
    ensures var r := Drive(search, block, limit, i, cursor, nf, nb);
      && |r.rounds| <= Remaining(limit, i)
      && (Remaining(limit, i) > 0 ==> r.rounds != [])
      && (r.outcome == LimitReached ==> |r.rounds| == Remaining(limit, i))
    decreases Remaining(limit, i)
  {
    if i > limit || !NonEmptyPage(search(nf, cursor)) {
      DriveStops(search, block, limit, i, cursor, nf, nb);
    } else {
      var ps := search(nf, cursor).posts;
      var b := BlockAll(block, nb, ScreenNames(ps));
      DriveOnPage(search, block, limit, i, cursor, nf, nb, ps, b);
      if b.ok {
        DriveBounded(search, block, limit, i + 1, CursorAfter(ps, cursor), nf + 1, nb + |b.issued|);
      }
    }
  }

  // ---------------------------------------------------------------------
  // How the rounds are linked to the oracles and to each other

  /** The first round, if any, is sent with `cursor`. */
  ghost predicate StartsAt(rs: seq<Round>, cursor: int) {
    rs != [] ==> rs[0].cursor == cursor
  }

  /** Each round of `rs` holds the reply of the search numbered `nf` on from
      the first round, to the cursor it was sent with. */
  ghost predicate RepliesFollowOracle(search: SearchOracle, nf: nat, rs: seq<Round>)
    decreases |rs|
  {
    rs != [] ==> rs[0].reply == search(nf, rs[0].cursor) && RepliesFollowOracle(search, nf + 1, rs[1..])
  }

  /** Every round but the last got a page, and the next round's cursor is
      the one that page left. */
  ghost predicate CursorsChained(rs: seq<Round>)
    decreases |rs|
  {
    |rs| > 1 ==>
      rs[0].reply.Page? && rs[1].cursor == CursorAfter(rs[0].reply.posts, rs[0].cursor) && CursorsChained(rs[1..])
  }

  /** Round `j` holds the reply of search number `nf + j`. */
  lemma {:induction false} RepliesAt(search: SearchOracle, nf: nat, rs: seq<Round>)
    requires RepliesFollowOracle(search, nf, rs)
    ensures forall j :: 0 <= j < |rs| ==> rs[j].reply == search(nf + j, rs[j].cursor)
    decreases |rs|
  {
    if rs != [] {
      RepliesAt(search, nf + 1, rs[1..]);
      forall j | 0 < j < |rs|
        ensures rs[j].reply == search(nf + j, rs[j].cursor)
      {
        assert rs[j] == rs[1..][j - 1];
      }
    }
  }

  /** Round `j + 1` is sent with the cursor that round `j`'s page left. */
  lemma {:induction false} ChainedAt(rs: seq<Round>)
    requires CursorsChained(rs)
    ensures forall j :: 0 <= j < |rs| - 1 ==>
      rs[j].reply.Page? && rs[j + 1].cursor == CursorAfter(rs[j].reply.posts, rs[j].cursor)
    decreases |rs|
  {
    if |rs| > 1 {
      ChainedAt(rs[1..]);
      forall j | 0 < j < |rs| - 1
        ensures rs[j].reply.Page? && rs[j + 1].cursor == CursorAfter(rs[j].reply.posts, rs[j].cursor)
      {
        assert rs[j] == rs[1..][j - 1] && rs[j + 1] == rs[1..][j];
      }
    }
  }

  /** The first search is sent with the starting cursor, the `j`-th search
      gets the oracle's `j`-th reply, and every later search is sent with the
      cursor that the previous page left. */
  lemma DriveFollowsOracle(search: SearchOracle, block: BlockOracle, limit: int,
                           i: nat, cursor: int, nf: nat, nb: nat)
    ensures var rs := Drive(search, block, limit, i, cursor, nf, nb).rounds;
      && (rs != [] ==> rs[0].cursor == cursor)
      && (forall j :: 0 <= j < |rs| ==> rs[j].reply == search(nf + j, rs[j].cursor))
      && (forall j :: 0 <= j < |rs| - 1 ==>
            rs[j].reply.Page? && rs[j + 1].cursor == CursorAfter(rs[j].reply.posts, rs[j].cursor))
  {
    var rs := Drive(search, block, limit, i, cursor, nf, nb).rounds;
    DriveStartsAt(search, block, limit, i, cursor, nf, nb);
    DriveRepliesFollowOracle(search, block, limit, i, cursor, nf, nb);
    DriveCursorsChained(search, block, limit, i, cursor, nf, nb);
    RepliesAt(search, nf, rs);
    ChainedAt(rs);
  }

  lemma DriveStartsAt(search: SearchOracle, block: BlockOracle, limit: int,
                      i: nat, cursor: int, nf: nat, nb: nat)
    ensures StartsAt(Drive(search, block, limit, i, cursor, nf, nb).rounds, cursor)
  {
  }

  lemma {:induction false} DriveRepliesFollowOracle(search: SearchOracle, block: BlockOracle, limit: int,
                                                    i: nat, cursor: int, nf: nat, nb: nat)
    ensures RepliesFollowOracle(search, nf, Drive(search, block, limit, i, cursor, nf, nb).rounds)
    decreases Remaining(limit, i)
  {
    if i > limit || !NonEmptyPage(search(nf, cursor)) {
      DriveStops(search, block, limit, i, cursor, nf, nb);
    } else {
      var ps := search(nf, cursor).posts;
      var b := BlockAll(block, nb, ScreenNames(ps));
      DriveOnPage(search, block, limit, i, cursor, nf, nb, ps, b);
      if b.ok {
        var c' := CursorAfter(ps, cursor);
        DriveRepliesFollowOracle(search, block, limit, i + 1, c', nf + 1, nb + |b.issued|);
        var rest := Drive(search, block, limit, i + 1, c', nf + 1, nb + |b.issued|).rounds;
        RepliesThenRest(search, nf, Round(cursor, Page(ps), b.issued, false), rest);
      }
    }
  }

  lemma {:induction false} DriveCursorsChained(search: SearchOracle, block: BlockOracle, limit: int,
                                               i: nat, cursor: int, nf: nat, nb: nat)
    ensures CursorsChained(Drive(search, block, limit, i, cursor, nf, nb).rounds)
    decreases Remaining(limit, i)
  {
    if i > limit || !NonEmptyPage(search(nf, cursor)) {
      DriveStops(search, block, limit, i, cursor, nf, nb);
    } else {
      var ps := search(nf, cursor).posts;
      var b := BlockAll(block, nb, ScreenNames(ps));
      DriveOnPage(search, block, limit, i, cursor, nf, nb, ps, b);
      if b.ok {
        var c' := CursorAfter(ps, cursor);
        DriveCursorsChained(search, block, limit, i + 1, c', nf + 1, nb + |b.issued|);
        DriveStartsAt(search, block, limit, i + 1, c', nf + 1, nb + |b.issued|);
        var rest := Drive(search, block, limit, i + 1, c', nf + 1, nb + |b.issued|).rounds;
        ChainedThenRest(Round(cursor, Page(ps), b.issued, false), rest);
      }
    }
  }

  /** A round holding the oracle's reply, in front of rounds that hold the
      replies from the next search on. */
  lemma RepliesThenRest(search: SearchOracle, nf: nat, r0: Round, rest: seq<Round>)
    requires r0.reply == search(nf, r0.cursor)
    requires RepliesFollowOracle(search, nf + 1, rest)
    ensures RepliesFollowOracle(search, nf, [r0] + rest)
  {
    assert ([r0] + rest)[1..] == rest;
  }

  /** A round that got a page, in front of chained rounds whose first cursor
      is the one that page leaves. */
  lemma ChainedThenRest(r0: Round, rest: seq<Round>)
    requires r0.reply.Page?
    requires StartsAt(rest, CursorAfter(r0.reply.posts, r0.cursor))
    requires CursorsChained(rest)
    ensures CursorsChained([r0] + rest)
  {
    assert ([r0] + rest)[1..] == rest;
  }

  /** The block requests of round `j` are the batch of that page's screen
      names, numbered on from the requests of the earlier rounds; a failed
      search issues none. */
  ghost predicate BlocksFollowOracle(block: BlockOracle, nb: nat, rs: seq<Round>, j: nat)
    requires j < |rs|
  {
    if rs[j].reply.Page?
    then BlockAll(block, nb + BlockedCount(rs[..j]), ScreenNames(rs[j].reply.posts))
         == BlockRun(!rs[j].raised, rs[j].blocked)
    else rs[j].raised && rs[j].blocked == []
  }

  /** Every round's block requests are the batch of its page. */
  ghost predicate BatchesFollowOracle(block: BlockOracle, nb: nat, rs: seq<Round>) {
    forall j :: 0 <= j < |rs| ==> BlocksFollowOracle(block, nb, rs, j)
  }

  lemma {:induction false} DriveBlocksFollowOracle(search: SearchOracle, block: BlockOracle, limit: int,
                                                   i: nat, cursor: int, nf: nat, nb: nat)
    ensures BatchesFollowOracle(block, nb, Drive(search, block, limit, i, cursor, nf, nb).rounds)
    decreases Remaining(limit, i)
  {
    var rs := Drive(search, block, limit, i, cursor, nf, nb).rounds;
    if i > limit || !NonEmptyPage(search(nf, cursor)) {
      DriveStops(search, block, limit, i, cursor, nf, nb);
      if i <= limit {
        assert rs[..0] == [];
        assert BlocksFollowOracle(block, nb, rs, 0);
      }
    } else {
      var ps := search(nf, cursor).posts;
      var b := BlockAll(block, nb, ScreenNames(ps));
      DriveOnPage(search, block, limit, i, cursor, nf, nb, ps, b);
      var r0 := Round(cursor, Page(ps), b.issued, !b.ok);
      if b.ok {
        var c' := CursorAfter(ps, cursor);
        DriveBlocksFollowOracle(search, block, limit, i + 1, c', nf + 1, nb + |b.issued|);
        var rest := Drive(search, block, limit, i + 1, c', nf + 1, nb + |b.issued|).rounds;
        BatchThenRest(block, nb, r0, rest);
      } else {
        BatchThenRest(block, nb, r0, []);
        assert [r0] + [] == [r0];
      }
    }
  }

  /** A round whose block requests are its page's batch, in front of rounds
      whose batches are numbered on from that round's requests. */
  lemma BatchThenRest(block: BlockOracle, nb: nat, r0: Round, rest: seq<Round>)
    requires r0.reply.Page?
    requires BlockAll(block, nb, ScreenNames(r0.reply.posts)) == BlockRun(!r0.raised, r0.blocked)
    requires BatchesFollowOracle(block, nb + |r0.blocked|, rest)
    ensures BatchesFollowOracle(block, nb, [r0] + rest)
  {
    var rs := [r0] + rest;
    assert rs[..0] == [];
    assert BlocksFollowOracle(block, nb, rs, 0);
    forall j | 0 < j < |rs|
      ensures BlocksFollowOracle(block, nb, rs, j)
    {
      assert BlocksFollowOracle(block, nb + |r0.blocked|, rest, j - 1);
      assert rs[j] == rest[j - 1];
      assert rs[..j] == [r0] + rest[..j - 1];
      assert ([r0] + rest[..j - 1])[1..] == rest[..j - 1];
      assert BlockedCount(rs[..j]) == |r0.blocked| + BlockedCount(rest[..j - 1]);
    }
  }

  /** Every round but the last went through, and after a LimitReached
      outcome the last one did too. */
  lemma {:induction false} DriveShape(search: SearchOracle, block: BlockOracle, limit: int,
                                      i: nat, cursor: int, nf: nat, nb: nat)
    ensures var r := Drive(search, block, limit, i, cursor, nf, nb);
      && (forall j :: 0 <= j < |r.rounds| - 1 ==> Complete(r.rounds[j]))
      && (r.outcome == LimitReached ==> forall j :: 0 <= j < |r.rounds| ==> Complete(r.rounds[j]))
    decreases Remaining(limit, i)
  {
    if i > limit || !NonEmptyPage(search(nf, cursor)) {
      DriveStops(search, block, limit, i, cursor, nf, nb);
    } else {
      var ps := search(nf, cursor).posts;
      var b := BlockAll(block, nb, ScreenNames(ps));
      DriveOnPage(search, block, limit, i, cursor, nf, nb, ps, b);
      if b.ok {
        BlockAllIssuesInOrder(block, nb, ScreenNames(ps));
        var c' := CursorAfter(ps, cursor);
        DriveShape(search, block, limit, i + 1, c', nf + 1, nb + |b.issued|);
        var rest := Drive(search, block, limit, i + 1, c', nf + 1, nb + |b.issued|);
        CompleteThenRest(Round(cursor, Page(ps), b.issued, false), rest.rounds);
      }
    }
  }

  /** A complete round in front of rounds of which all (or all but the last)
      are complete. */
  lemma CompleteThenRest(r0: Round, rest: seq<Round>)
    requires Complete(r0)
    ensures (forall j :: 0 <= j < |rest| - 1 ==> Complete(rest[j])) ==>
              forall j :: 0 <= j < |[r0] + rest| - 1 ==> Complete(([r0] + rest)[j])
    ensures (forall j :: 0 <= j < |rest| ==> Complete(rest[j])) ==>
              forall j :: 0 <= j < |[r0] + rest| ==> Complete(([r0] + rest)[j])
  {
    forall j | 0 < j < |[r0] + rest|
      ensures ([r0] + rest)[j] == rest[j - 1]
    {
    }
  }

  /** The outcome says how the last round ended: NoData on an empty page
      with no block request, Failed exactly when an exception ended it,
      either in its search or in one of the block requests for its page. */
  lemma {:induction false} DriveOutcome(search: SearchOracle, block: BlockOracle, limit: int,
                                        i: nat, cursor: int, nf: nat, nb: nat)
    ensures var r := Drive(search, block, limit, i, cursor, nf, nb);
      && (r.outcome == NoData ==>
            r.rounds != [] && Last(r.rounds).reply == Page([]) && Last(r.rounds).blocked == []
            && !Last(r.rounds).raised)
      && (r.outcome == Failed <==> r.rounds != [] && Last(r.rounds).raised)
      && (r.outcome == Failed ==>
            Last(r.rounds).reply.FetchFailed? ||
            (NonEmptyPage(Last(r.rounds).reply) && Last(r.rounds).blocked != []
             && Last(r.rounds).blocked <= ScreenNames(Last(r.rounds).reply.posts)))
    decreases Remaining(limit, i)
  {
    if i <= limit {
      match search(nf, cursor)
      case FetchFailed =>
      case Page(ps) =>
        if ps != [] {
          var names := ScreenNames(ps);
          var b := BlockAll(block, nb, names);
          if b.ok {
            var c' := CursorAfter(ps, cursor);
            DriveOutcome(search, block, limit, i + 1, c', nf + 1, nb + |b.issued|);
            var r := Drive(search, block, limit, i, cursor, nf, nb);
            var rest := Drive(search, block, limit, i + 1, c', nf + 1, nb + |b.issued|);
            assert r.rounds == [Round(cursor, Page(ps), b.issued, false)] + rest.rounds;
            if rest.rounds != [] {
              assert Last(r.rounds) == Last(rest.rounds);
            }
          } else {
            BlockAllStopsAtFirstFailure(block, nb, names);
            BlockAllIssuesInOrder(block, nb, names);
          }
        }
    }
  }

  // ---------------------------------------------------------------------
  // The two normal ends, from the oracles' side

  /** The `n`-th search returns an empty page, whatever its cursor. */
  ghost predicate EmptyAt(search: SearchOracle, n: nat) {
    forall c: int :: search(n, c) == Page([])
  }

  /** If the first `k` searches return non-empty pages, the next one an
      empty page, and no block request raises, and the ceiling allows
      `k + 1` searches, then the run makes exactly `k + 1` searches, blocks
      every name of the first `k` pages, and ends with NoData without a block
      request for the empty page. */
  lemma {:induction false} FirstEmptyPageEndsRun(search: SearchOracle, block: BlockOracle, limit: int,
                                                 i: nat, cursor: int, nf: nat, nb: nat, k: nat)
    requires i + k <= limit
    requires forall n: nat, c: int :: nf <= n < nf + k ==> NonEmptyPage(search(n, c))
    requires EmptyAt(search, nf + k)
    requires forall n: nat, name: string :: block(n, name)
    ensures var r := Drive(search, block, limit, i, cursor, nf, nb);
      && r.outcome == NoData
      && |r.rounds| == k + 1
      && (forall j :: 0 <= j < k ==> Complete(r.rounds[j]))
      && r.rounds[k].reply == Page([]) && r.rounds[k].blocked == []
    decreases k
  {
    if k > 0 {
      var ps := search(nf, cursor).posts;
      var names := ScreenNames(ps);
      var b := BlockAll(block, nb, names);
      BlockAllIssuesInOrder(block, nb, names);
      var c' := CursorAfter(ps, cursor);
      assert (nf + 1) + (k - 1) == nf + k;
      FirstEmptyPageEndsRun(search, block, limit, i + 1, c', nf + 1, nb + |b.issued|, k - 1);
      var rest := Drive(search, block, limit, i + 1, c', nf + 1, nb + |b.issued|);
      var r := Drive(search, block, limit, i, cursor, nf, nb);
      assert r.rounds == [Round(cursor, Page(ps), b.issued, false)] + rest.rounds;
      forall j | 0 < j <= k
        ensures r.rounds[j] == rest.rounds[j - 1]
      {
      }
    }
  }

  /** If every search returns a non-empty page and no block request raises,
      the run uses every search the ceiling allows and ends with
      LimitReached, all rounds complete. */
  lemma {:induction false} PagesUntilCeiling(search: SearchOracle, block: BlockOracle, limit: int,
                                             i: nat, cursor: int, nf: nat, nb: nat)
    requires forall n: nat, c: int :: nf <= n ==> NonEmptyPage(search(n, c))
    requires forall n: nat, name: string :: block(n, name)
    ensures var r := Drive(search, block, limit, i, cursor, nf, nb);
      && r.outcome == LimitReached
      && |r.rounds| == Remaining(limit, i)
      && (forall j :: 0 <= j < |r.rounds| ==> Complete(r.rounds[j]))
    decreases Remaining(limit, i)
  {
    if i <= limit {
      var ps := search(nf, cursor).posts;
      var names := ScreenNames(ps);
      var b := BlockAll(block, nb, names);
      BlockAllIssuesInOrder(block, nb, names);
      var c' := CursorAfter(ps, cursor);
      PagesUntilCeiling(search, block, limit, i + 1, c', nf + 1, nb + |b.issued|);
      var rest := Drive(search, block, limit, i + 1, c', nf + 1, nb + |b.issued|);
      var r := Drive(search, block, limit, i, cursor, nf, nb);
      assert r.rounds == [Round(cursor, Page(ps), b.issued, false)] + rest.rounds;
      forall j | 0 < j < |r.rounds|
        ensures r.rounds[j] == rest.rounds[j - 1]
      {
      }
    }
  }

  // ---------------------------------------------------------------------
  // Cursor movement

  /** The service honours a non-zero `max_id` (inclusively): every status
      it returns for it has an id at most that bound. The tool itself does
      not rely on this; the lemma below assumes it explicitly. */
  ghost predicate HonoursMaxId(search: SearchOracle) {
    forall n: nat, c: int, k: int ::
      c != 0 && search(n, c).Page? && 0 <= k < |search(n, c).posts| ==> search(n, c).posts[k].id <= c
  }

  /** When the service honours `max_id`, every search after one sent with a
      non-zero cursor is sent with a strictly smaller cursor. */
  lemma CursorsDecrease(search: SearchOracle, block: BlockOracle, limit: int,
                        i: nat, cursor: int, nf: nat, nb: nat)
    requires HonoursMaxId(search)
    ensures var rs := Drive(search, block, limit, i, cursor, nf, nb).rounds;
      forall j :: 0 <= j < |rs| - 1 && rs[j].cursor != 0 ==> rs[j + 1].cursor < rs[j].cursor
  {
    var rs := Drive(search, block, limit, i, cursor, nf, nb).rounds;
    DriveFollowsOracle(search, block, limit, i, cursor, nf, nb);
    DriveShape(search, block, limit, i, cursor, nf, nb);
    forall j | 0 <= j < |rs| - 1 && rs[j].cursor != 0
      ensures rs[j + 1].cursor < rs[j].cursor
    {
      assert Complete(rs[j]);
      var ps := rs[j].reply.posts;
      assert rs[j].reply == search(nf + j, rs[j].cursor);
      CursorAfterBelowBound(ps, rs[j].cursor);
    }
  }

  // ---------------------------------------------------------------------
  // The trace

  lemma {:induction false} SearchCursorsAppend(a: seq<Call>, b: seq<Call>)
    ensures SearchCursors(a + b) == SearchCursors(a) + SearchCursors(b)
    decreases |a|
  {
    if a == [] {
      assert a + b == b;
    } else {
      var ab := a + b;
      assert ab[0] == a[0] && ab[1..] == a[1..] + b;
      SearchCursorsAppend(a[1..], b);
    }
  }

  lemma {:induction false} BlockedNamesAppend(a: seq<Call>, b: seq<Call>)
    ensures BlockedNames(a + b) == BlockedNames(a) + BlockedNames(b)
    decreases |a|
  {
    if a == [] {
      assert a + b == b;
    } else {
      var ab := a + b;
      assert ab[0] == a[0] && ab[1..] == a[1..] + b;
      BlockedNamesAppend(a[1..], b);
    }
  }

  lemma {:induction false} BlockCallsTrace(names: seq<string>)
    ensures SearchCursors(BlockCalls(names)) == []
    ensures BlockedNames(BlockCalls(names)) == names
    decreases |names|
  {
    if names != [] {
      BlockCallsTrace(names[1..]);
    }
  }

  /** The trace of a list of rounds has one search call per round, with the
      round's cursor, and the block requests of the rounds in order. */
  lemma {:induction false} FlattenTrace(rs: seq<Round>)
    ensures SearchCursors(Flatten(rs)) == Cursors(rs)
    ensures BlockedNames(Flatten(rs)) == AllBlocked(rs)
    decreases |rs|
  {
    if rs != [] {
      FlattenTrace(rs[1..]);
      BlockCallsTrace(rs[0].blocked);
      SearchCursorsAppend([Search(rs[0].cursor)], BlockCalls(rs[0].blocked));
      SearchCursorsAppend(RoundCalls(rs[0]), Flatten(rs[1..]));
      BlockedNamesAppend([Search(rs[0].cursor)], BlockCalls(rs[0].blocked));
      BlockedNamesAppend(RoundCalls(rs[0]), Flatten(rs[1..]));
    }
  }

  lemma {:induction false} CursorsOfRounds(rs: seq<Round>)
    ensures |Cursors(rs)| == |rs|
    ensures forall j :: 0 <= j < |rs| ==> Cursors(rs)[j] == rs[j].cursor
    decreases |rs|
  {
    if rs != [] {
      CursorsOfRounds(rs[1..]);
      forall j | 0 < j < |rs|
        ensures Cursors(rs)[j] == rs[j].cursor
      {
        assert Cursors(rs)[j] == Cursors(rs[1..])[j - 1];
      }
    }
  }

  /** Seen from outside, a run started by the tool sends at most
      `limit + 1` search calls (none when the limit is negative), the first
      one with `max_id` 0, and every later one with the cursor left by the
      page of the search before it. */
  lemma SearchCallsOfRun(search: SearchOracle, block: BlockOracle, limit: int, nf: nat, nb: nat)
    ensures var r := Start(search, block, limit, nf, nb);
      var sent := SearchCursors(Flatten(r.rounds));
      && |sent| == |r.rounds| <= Remaining(limit, 0)
      && (limit >= 0 ==> |sent| > 0 && sent[0] == 0)
      && (forall j :: 0 <= j < |sent| - 1 ==>
            r.rounds[j].reply.Page? && sent[j + 1] == CursorAfter(r.rounds[j].reply.posts, sent[j]))
  {
    var r := Start(search, block, limit, nf, nb);
    DriveBounded(search, block, limit, 0, 0, nf, nb);
    DriveFollowsOracle(search, block, limit, 0, 0, nf, nb);
    FlattenTrace(r.rounds);
    CursorsOfRounds(r.rounds);
  }

  // ---------------------------------------------------------------------
  // The scenario of a two-call run

  /** One page of two statuses, then an empty page: "alice" and then "bob"
      are blocked, the second search is sent with cursor 101, and the run
      ends with NoData after two searches and two block requests. */
  lemma TwoPageScenario()
    ensures var page := [Post(105, "alice"), Post(102, "bob")];
      var r := Start((n: nat, c: int) => if n == 0 then Page(page) else Page([]),
                     (n: nat, name: string) => true, 180, 0, 0);
      && r == Run(NoData, [Round(0, Page(page), ["alice", "bob"], false), Round(101, Page([]), [], false)])
      && Flatten(r.rounds) == [Search(0), Block("alice"), Block("bob"), Search(101)]
  {
    var page := [Post(105, "alice"), Post(102, "bob")];
    var search: SearchOracle := (n: nat, c: int) => if n == 0 then Page(page) else Page([]);
    var block: BlockOracle := (n: nat, name: string) => true;
    assert ScreenNames(page) == ["alice", "bob"];
    assert BlockAll(block, 0, ["alice", "bob"]) == BlockRun(true, ["alice", "bob"]);
    assert CursorAfter(page, 0) == 101;
    var second := Drive(search, block, 180, 1, 101, 1, 2);
    assert second == Run(NoData, [Round(101, Page([]), [], false)]);
    var first := Drive(search, block, 180, 0, 0, 0, 0);
    assert first.rounds == [Round(0, Page(page), ["alice", "bob"], false)] + second.rounds;
    assert BlockCalls(["alice", "bob"]) == [Block("alice"), Block("bob")];
    assert Flatten(second.rounds) == [Search(101)];
  }
}
