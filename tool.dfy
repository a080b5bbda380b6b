/** The tool object: its settings, the search term it prepares, and the
    methods that talk to the two endpoints and run the drive loop. The
    endpoints are oracles given to the constructor; every outbound request is
    recorded in the ghost trace `calls`. */
module Tool {
  import opened SearchQuery
  import opened Pages
  import opened Blocking
  import opened DriveLoop

  class BlockTool {
    const targetWord: string
    /** Page size sent as `count`; the oracle stands for searches sent with it. */
    const maximumCount: int
    /** The search ceiling: searches are made while the counter is at most this. */
    const searchLimit: int
    /** The prepared search term, before percent-encoding; None until set. */
    var targetParse: Option<string>

    const search: SearchOracle
    const block: BlockOracle

    /** The numbers of search and block requests issued so far: the oracles
        are indexed by them. */
    var searchCount: nat
    var blockCount: nat
    ghost var calls: seq<Call>

    constructor (targetWord: string, maximumCount: int, searchLimit: int,
                 search: SearchOracle, block: BlockOracle)
      ensures this.targetWord == targetWord && this.maximumCount == maximumCount
      ensures this.searchLimit == searchLimit
      ensures this.search == search && this.block == block
      ensures targetParse == None
      ensures searchCount == 0 && blockCount == 0 && calls == []
    {
      this.targetWord := targetWord;
      this.maximumCount := maximumCount;
      this.searchLimit := searchLimit;
      this.search := search;
      this.block := block;
      targetParse := None;
      searchCount := 0;
      blockCount := 0;
      calls := [];
    }

    /** Prepares the search term for the target word. */
    method SetUrlParse()
      modifies this`targetParse
      ensures targetParse == Some(SearchTerm(targetWord))
    {
      var target := "#" + targetWord + ExcludeReposts;
      targetParse := Some(target);
    }

    /** One search request with `max_id` set to the cursor. */
    method SearchTweets(currentId: int) returns (usersInfo: FetchResult)
      modifies this`searchCount, this`calls
      ensures usersInfo == search(old(searchCount), currentId)
      ensures searchCount == old(searchCount) + 1
      ensures calls == old(calls) + [Search(currentId)]
    {
      usersInfo := search(searchCount, currentId);
      searchCount := searchCount + 1;
      calls := calls + [Search(currentId)];
    }

    /** One block request; `ok` is false when the request raises. */
    method BlockRequest(screenName: string) returns (ok: bool)
      modifies this`blockCount, this`calls
      ensures ok == block(old(blockCount), screenName)
      ensures blockCount == old(blockCount) + 1
      ensures calls == old(calls) + [Block(screenName)]
    {
      ok := block(blockCount, screenName);
      blockCount := blockCount + 1;
      calls := calls + [Block(screenName)];
    }

    /** One block request per entry of the list, in list order; the first
        request that raises ends the batch with `ok` false. */
    method BlockUsers(usernameList: seq<string>) returns (ok: bool)
      modifies this`blockCount, this`calls
      ensures var b := BlockAll(block, old(blockCount), usernameList);
        && ok == b.ok
        && calls == old(calls) + BlockCalls(b.issued)
        && blockCount == old(blockCount) + |b.issued|
    {
      ghost var whole := BlockAll(block, blockCount, usernameList);
      var k := 0;
      while k < |usernameList|
        invariant 0 <= k <= |usernameList|
        invariant whole == After(usernameList[..k], BlockAll(block, blockCount, usernameList[k..]))
        invariant calls == old(calls) + BlockCalls(usernameList[..k])
        invariant blockCount == old(blockCount) + k
      {
        var screenName := usernameList[k];
        BlockAllStep(block, blockCount, usernameList, k, whole);
        BlockCallsSnoc(old(calls), usernameList, k);
        var returned := BlockRequest(screenName);
        if !returned {
          assert whole.issued == usernameList[..k + 1];
          assert calls == old(calls) + BlockCalls(usernameList[..k + 1]);
          return false;
        }
        k := k + 1;
      }
      assert usernameList[..k] == usernameList && usernameList[k..] == [];
      assert whole.issued == usernameList;
      ok := true;
    }

    /** The walk over one page: the authors' screen names in page order, and
        the cursor each status overwrites with its id minus one. */
    static method ReadPage(posts: seq<Post>, cursor: int) returns (usernameList: seq<string>, currentId: int)
      ensures usernameList == ScreenNames(posts)
      ensures currentId == CursorAfter(posts, cursor)
    {
      usernameList := [];
      currentId := cursor;
      var k := 0;
      while k < |posts|
        invariant 0 <= k <= |posts|
        invariant |usernameList| == k
        invariant forall j :: 0 <= j < k ==> usernameList[j] == posts[j].screenName
        invariant currentId == CursorAfter(posts[..k], cursor)
      {
        usernameList := usernameList + [posts[k].screenName];
        currentId := posts[k].id - 1;
        k := k + 1;
      }
      assert posts[..k] == posts;
      ScreenNamesAt(posts);
    }

    /** One pass of the drive loop below the ceiling: the search call, then,
        on a non-empty page, the walk over it and its batch of block
        requests. `stop` is the outcome when the run ends in this pass;
        otherwise the run goes on from `nextId`. */
    method SearchAndBlock(i: nat, currentId: int, ghost rest: Run)
      returns (stop: Option<Outcome>, nextId: int, ghost round: Round, ghost next: Run)
      requires i <= searchLimit
      requires rest == Drive(search, block, searchLimit, i, currentId, searchCount, blockCount)
      modifies this`searchCount, this`blockCount, this`calls
      ensures calls == old(calls) + RoundCalls(round)
      ensures searchCount == old(searchCount) + 1
      ensures blockCount == old(blockCount) + |round.blocked|
      ensures stop.Some? ==> rest == Run(stop.value, [round])
      ensures stop.None? ==> next == Drive(search, block, searchLimit, i + 1, nextId, searchCount, blockCount)
      ensures stop.None? ==> rest == Run(next.outcome, [round] + next.rounds)
    {
      ghost var nf, nb := searchCount, blockCount;
      var usernameList := [];
      nextId := currentId;
      next := rest;
      var usersInfo := SearchTweets(currentId);
      if usersInfo.FetchFailed? || usersInfo.posts == [] {
        DriveStops(search, block, searchLimit, i, currentId, nf, nb);
        round := Round(currentId, usersInfo, [], usersInfo.FetchFailed?);
        stop := Some(if usersInfo.FetchFailed? then Failed else NoData);
        return;
      }
      var posts := usersInfo.posts;
      usernameList, nextId := ReadPage(posts, currentId);
      ghost var b := BlockAll(block, nb, ScreenNames(posts));
      DriveOnPage(search, block, searchLimit, i, currentId, nf, nb, posts, b);
      var ok := BlockUsers(usernameList);
      round := Round(currentId, Page(posts), b.issued, !ok);
      next := Drive(search, block, searchLimit, i + 1, nextId, nf + 1, nb + |b.issued|);
      stop := if ok then None else Some(Failed);
    }

    /** One pass of the drive loop, seen against the whole run: `done` are
        the rounds before it and `rest` the run from it on; the pass appends
        its round to `done` and, unless the run ends with it, hands on the
        run from the next pass. */
    method LoopPass(i: nat, currentId: int, ghost pre: seq<Call>, ghost nf0: nat, ghost nb0: nat,
                    ghost whole: Run, ghost done: seq<Round>, ghost rest: Run)
      returns (stop: Option<Outcome>, nextId: int, ghost done': seq<Round>, ghost next: Run)
      requires i <= searchLimit
      requires rest == Drive(search, block, searchLimit, i, currentId, searchCount, blockCount)
      requires whole == Run(rest.outcome, done + rest.rounds)
      requires calls == pre + Flatten(done)
      requires searchCount == nf0 + |done| && blockCount == nb0 + BlockedCount(done)
      modifies this`searchCount, this`blockCount, this`calls
      ensures calls == pre + Flatten(done')
      ensures searchCount == nf0 + |done'| && blockCount == nb0 + BlockedCount(done')
      ensures stop.Some? ==> whole == Run(stop.value, done')
      ensures stop.None? ==> next == Drive(search, block, searchLimit, i + 1, nextId, searchCount, blockCount)
      ensures stop.None? ==> whole == Run(next.outcome, done' + next.rounds)
    {
      ghost var round;
      stop, nextId, round, next := SearchAndBlock(i, currentId, rest);
      TraceThenRound(pre, done, round);
      done' := done + [round];
      if stop.None? {
        RunThenRound(whole, rest, next, done, round);
      }
    }

    /** The drive loop: searches from cursor 0 while the counter is at most
        the ceiling, stops on an empty page, blocks every author of a
        non-empty page and moves the cursor to the last status's id minus
        one; an exception from any request ends the run as Failed. */
    method ExecBlockProcess() returns (outcome: Outcome)
      modifies this`searchCount, this`blockCount, this`calls
      ensures var r := Start(search, block, searchLimit, old(searchCount), old(blockCount));
        && outcome == r.outcome
        && calls == old(calls) + Flatten(r.rounds)
        && searchCount == old(searchCount) + |r.rounds|
        && blockCount == old(blockCount) + BlockedCount(r.rounds)
    {
      ghost var whole := Start(search, block, searchLimit, searchCount, blockCount);
      ghost var rest := whole;
      ghost var done: seq<Round> := [];
      var currentId := 0;
      var i := 0;
      while i <= searchLimit
        invariant rest == Drive(search, block, searchLimit, i, currentId, searchCount, blockCount)
        invariant whole == Run(rest.outcome, done + rest.rounds)
        invariant calls == old(calls) + Flatten(done)
        invariant searchCount == old(searchCount) + |done|
        invariant blockCount == old(blockCount) + BlockedCount(done)
        decreases searchLimit + 1 - i
      {
        var stop;
        stop, currentId, done, rest := LoopPass(i, currentId, old(calls), old(searchCount), old(blockCount),
                                                whole, done, rest);
        if stop.Some? {
          outcome := stop.value;
          return;
        }
        i := i + 1;
      }
      DriveStops(search, block, searchLimit, i, currentId, searchCount, blockCount);
      assert whole == Run(LimitReached, done);
      outcome := LimitReached;
    }

    /** The tool's entry: prepare the search term, then run the drive loop.
        Reading the credentials is not part of this model. */
    method RunTool() returns (outcome: Outcome)
      modifies this`targetParse, this`searchCount, this`blockCount, this`calls
      ensures targetParse == Some(SearchTerm(targetWord))
      ensures var r := Start(search, block, searchLimit, old(searchCount), old(blockCount));
        && outcome == r.outcome
        && calls == old(calls) + Flatten(r.rounds)
    {
      SetUrlParse();
      outcome := ExecBlockProcess();
    }
  }

  /** A client run of the tool on the two-call scenario: the contracts alone
      fix the outcome and the requests made. */
  method TwoPageRun() returns (outcome: Outcome)
    ensures outcome == NoData
  {
    var page := [Post(105, "alice"), Post(102, "bob")];
    var tool := new BlockTool("spam", 100, 180,
                              (n: nat, c: int) => if n == 0 then Page(page) else Page([]),
                              (n: nat, name: string) => true);
    TwoPageScenario();
    outcome := tool.RunTool();
    assert tool.calls == [Search(0), Block("alice"), Block("bob"), Search(101)];
  }
}
