/** The Telegram backend: the updates a bot can read, asked for page by page
    from a growing offset. Telegram deletes what it has handed out, so each
    raw response goes to the cache before it is looked at, and the loop
    stops at the first page with no updates. */
module Telegram {
  import opened Wrappers
  import opened Seqs

  const TelegramUrl := "https://telegram.org"
  const DefaultOffset := 1
  const OffsetParam := "offset"

  /** The fields of an update the backend looks at: its `update_id`, and the
      `message_id` and `chat.id` of the message it carries. */
  datatype Update = Update(updateId: int, messageId: int, chatId: int)

  /** A `getUpdates` call with its query parameters. */
  datatype Request = GetUpdates(params: map<string, int>)

  /** The failure status `raise_for_status` turns into an exception. */
  datatype HttpError = HttpError(status: int)

  /** `CacheError`, raised when no cache was given. */
  datatype CacheError = CacheNotProvided

  /** What the backend depends on but does not define: the server (one
      `getUpdates` call of the bot's client) and `parse_messages`, the JSON
      decoder that turns a raw response into its updates. */
  datatype Env = Env(call: Request -> Result<string, HttpError>, decode: string -> seq<Update>)

  // ---------------------------------------------------------------------
  // The client and the filter

  /** `TelegramBotClient.updates`: the offset is sent only when it is truthy,
      so neither `None` nor `0` sends any parameter. */
  function UpdatesRequest(offset: Option<int>): (r: Request)
    ensures OffsetParam in r.params <==> offset.Some? && offset.value != 0
    ensures forall k :: k in r.params ==> k == OffsetParam && r.params[k] == offset.value
  {
    if offset.Some? && offset.value != 0 then GetUpdates(map[OffsetParam := offset.value])
    else GetUpdates(map[])
  }

  /** `updates()` and `updates(offset=0)` ask with no parameters; any other
      offset is sent as it is. */
  lemma UpdatesParams(o: int)
    ensures UpdatesRequest(None).params == map[]
    ensures UpdatesRequest(Some(0)).params == map[]
    ensures o != 0 ==> UpdatesRequest(Some(o)).params == map[OffsetParam := o]
    ensures UpdatesRequest(Some(DefaultOffset)).params == map[OffsetParam := 1]
  {
    assert OffsetParam !in UpdatesRequest(None).params;
    assert OffsetParam !in UpdatesRequest(Some(0)).params;
  }

  /** `_filter_message_by_chats`: every update passes when there is no chat
      list; otherwise exactly those sent to a chat on it. */
  predicate Passes(u: Update, chats: Option<seq<int>>) {
    chats.None? || u.chatId in chats.value
  }

  /** The updates of `us` that pass the chat filter, in order. */
  function Filter(us: seq<Update>, chats: Option<seq<int>>): (r: seq<Update>)
    ensures |r| <= |us|
  {
    if us == [] then []
    else (if Passes(us[0], chats) then [us[0]] else []) + Filter(us[1..], chats)
  }

  /** The filter keeps exactly the updates that pass it. */
  lemma {:induction false} FilterMembers(us: seq<Update>, chats: Option<seq<int>>)
    ensures forall u :: u in Filter(us, chats) <==> u in us && Passes(u, chats)
    decreases |us|
  {
    if us != [] {
      FilterMembers(us[1..], chats);
      assert forall u :: u in us <==> u == us[0] || u in us[1..];
    }
  }

  /** Filtering a run of updates filters each part. */
  lemma {:induction false} FilterAppend(a: seq<Update>, b: seq<Update>, chats: Option<seq<int>>)
    ensures Filter(a + b, chats) == Filter(a, chats) + Filter(b, chats)
    decreases |a|
  {
    if a == [] {
      assert a + b == b;
    } else {
      assert (a + b)[0] == a[0] && (a + b)[1..] == a[1..] + b;
      FilterAppend(a[1..], b, chats);
      ConcatAssoc(if Passes(a[0], chats) then [a[0]] else [], Filter(a[1..], chats), Filter(b, chats));
    }
  }

  /** No chat list keeps everything; an empty chat list drops everything. */
  lemma {:induction false} FilterBounds(us: seq<Update>)
    ensures Filter(us, None) == us
    ensures Filter(us, Some([])) == []
    decreases |us|
  {
    if us != [] {
      FilterBounds(us[1..]);
    }
  }

  // ---------------------------------------------------------------------
  // The offset

  /** The offset after the updates of a page were looked at: the largest of
      the offset before and their `update_id`s. */
  function Raise(offset: int, page: seq<Update>): (r: int)
    ensures r >= offset
  {
    if page == [] then offset
    else
      var before := Raise(offset, page[..|page| - 1]);
      var top := Last(page).updateId;
      if top > before then top else before
  }

  /** The raised offset is the maximum of the offset before and the page's
      `update_id`s: no smaller than any of them, and equal to one of them. */
  lemma {:induction false} RaiseIsMax(offset: int, page: seq<Update>)
    ensures var r := Raise(offset, page);
            && (forall i :: 0 <= i < |page| ==> page[i].updateId <= r)
            && (r == offset || exists i :: 0 <= i < |page| && r == page[i].updateId)
    decreases |page|
  {
    if page != [] {
      var init := page[..|page| - 1];
      RaiseIsMax(offset, init);
      assert forall i :: 0 <= i < |page| - 1 ==> page[i] == init[i];
    }
  }

  /** From `horizon` on, the server has no more updates: every page asked
      for from there is empty or the call fails. */
  predicate Quiet(env: Env, offset: int) {
    match env.call(UpdatesRequest(Some(offset)))
    case Success(raw) => env.decode(raw) == []
    case Failure(_) => true
  }

  ghost predicate Drains(env: Env, horizon: int) {
    forall offset :: offset >= horizon ==> Quiet(env, offset)
  }

  function Budget(offset: int, horizon: int): nat {
    if offset < horizon then horizon - offset else 0
  }

  // ---------------------------------------------------------------------
  // The fetch loop, as a specification

  datatype Status = Done | Failed(error: HttpError)

  /** A run of `fetch`: the offset of each request, the raw responses in the
      order they were cached, the updates yielded, and how it ended. */
  datatype Run = Run(offsets: seq<int>, cached: seq<string>, messages: seq<Update>, status: Status)

  /** What `fetch(offset, chats)` does against `env`. */
  function Poll(env: Env, offset: int, chats: Option<seq<int>>, horizon: int): (run: Run)
    requires Drains(env, horizon)
    ensures run.offsets != [] && run.offsets[0] == offset
    decreases Budget(offset, horizon)
  {
    match env.call(UpdatesRequest(Some(offset)))
    case Failure(e) => Run([offset], [], [], Failed(e))
    case Success(raw) =>
      var page := env.decode(raw);
      if page == [] then Run([offset], [raw], [], Done)
      else
        assert !Quiet(env, offset);
        var rest := Poll(env, Raise(offset, page) + 1, chats, horizon);
        Run([offset] + rest.offsets, [raw] + rest.cached, Filter(page, chats) + rest.messages, rest.status)
  }

  /** The cache after `raws` were stored in it; without a cache nothing is kept. */
  function Stored(cache: Option<seq<string>>, raws: seq<string>): Option<seq<string>> {
    if cache.None? then None else Some(cache.value + raws)
  }

  /** Every update of the raw responses `raws`, page after page: what
      `fetch_from_cache` yields. */
  function Decoded(env: Env, raws: seq<string>): (us: seq<Update>) {
    if raws == [] then [] else Decoded(env, raws[..|raws| - 1]) + env.decode(Last(raws))
  }

  /** `origin`, or when it is `None` or empty, the Telegram URL joined with
      the name of the bot. */
  function Origin(bot: string, origin: Option<string>): (r: string)
    ensures origin.Some? && origin.value != "" ==> r == origin.value
    ensures origin.None? || origin.value == "" ==> r == "https://telegram.org/" + bot
  {
    if origin.Some? && origin.value != "" then origin.value else TelegramUrl + "/" + bot
  }

  // ---------------------------------------------------------------------
  // The backend

  class TelegramBackend {
    const bot: string
    const origin: string
    /** The bot's client and the JSON decoder. */
    const env: Env
    /** The cache's stored raw responses; `None` when no cache was given. */
    var cache: Option<seq<string>>

    constructor (bot: string, env: Env, cache: Option<seq<string>>, origin: Option<string>)
      ensures this.bot == bot && this.env == env && this.cache == cache
      ensures this.origin == Origin(bot, origin)
    {
      this.bot := bot;
      this.env := env;
      this.cache := cache;
      this.origin := Origin(bot, origin);
    }

    /** `_push_cache_queue` followed by `_flush_cache_queue`: the raw
        response is stored in the cache, if there is one. */
    method Store(raw: string)
      modifies this
      ensures cache == Stored(old(cache), [raw])
    {
      if cache.Some? {
        cache := Some(cache.value + [raw]);
      }
    }

    /** The loop over one non-empty page: the offset is raised by every
        update, and the updates that pass the filter are yielded. */
    method TakePage(page: seq<Update>, chats: Option<seq<int>>, offset: int) returns (top: int, passed: seq<Update>)
      ensures top == Raise(offset, page)
      ensures passed == Filter(page, chats)
    {
      top := offset;
      passed := [];
      var j := 0;
      while j < |page|
        invariant 0 <= j <= |page|
        invariant top == Raise(offset, page[..j])
        invariant passed == Filter(page[..j], chats)
      {
        assert page[..j + 1][..j] == page[..j];
        FilterAppend(page[..j], [page[j]], chats);
        assert page[..j + 1] == page[..j] + [page[j]];
        if page[j].updateId > top {
          top := page[j].updateId;
        }
        if Passes(page[j], chats) {
          passed := passed + [page[j]];
        }
        j := j + 1;
      }
      assert page[..j] == page;
    }

    /** `fetch(offset, chats)`, run until the first empty page or the first
        failing call; `horizon` bounds the offsets at which the server still
        has updates. */
    method Fetch(offset: int, chats: Option<seq<int>>, ghost horizon: int)
      returns (messages: seq<Update>, status: Status, ghost sent: seq<int>)
      requires Drains(env, horizon)
      modifies this
      ensures var run := Poll(env, offset, chats, horizon);
              && messages == run.messages && status == run.status && sent == run.offsets
              && cache == Stored(old(cache), run.cached)
    {
      ghost var run := Poll(env, offset, chats, horizon);
      PollChained(env, offset, chats, horizon);
      PollEnds(env, offset, chats, horizon);
      PollYieldsFilteredCache(env, offset, chats, horizon);
      ghost var n := |run.offsets|;
      ghost var k := 0;
      var next := offset;
      ghost var raws: seq<string> := [];
      sent := [];
      messages := [];
      StoredNothing(cache);
      while true
        invariant Chained(env, run) && Ended(env, run) && n == |run.offsets|
        invariant k < n && next == run.offsets[k]
        invariant sent == run.offsets[..k] && raws == run.cached[..k]
        invariant cache == Stored(old(cache), raws)
        invariant messages == Filter(Decoded(env, raws), chats)
        decreases n - k
      {
        var response := env.call(UpdatesRequest(Some(next)));
        if k < n - 1 {
          assert Link(env, run.offsets[k], run.cached[k], run.offsets[k + 1]);
        }
        match response
        case Failure(e) =>
          TakeSnoc(run.offsets, k);
          TakeAll(run.offsets);
          TakeAll(run.cached);
          status := Failed(e);
          sent := sent + [next];
          return;
        case Success(raw) =>
          Store(raw);
          StoredTwice(old(cache), raws, [raw]);
          TakeSnoc(run.offsets, k);
          TakeSnoc(run.cached, k);
          DecodedSnoc(env, raws, raw);
          var page := env.decode(raw);
          if page == [] {
            TakeAll(run.offsets);
            TakeAll(run.cached);
            EmptyResponseAddsNothing(env, raws, raw, chats);
            status := Done;
            sent := sent + [next];
            raws := raws + [raw];
            return;
          }
          var top, passed := TakePage(page, chats, next);
          FilterAppend(Decoded(env, raws), page, chats);
          sent := sent + [next];
          raws := raws + [raw];
          messages := messages + passed;
          next := top + 1;
          k := k + 1;
      }
    }

    /** `fetch_from_cache`: `CacheError` without a cache; otherwise every
        update of every cached response, in the order they were stored. */
    method FetchFromCache() returns (r: Result<seq<Update>, CacheError>)
      ensures cache.None? ==> r == Failure(CacheNotProvided)
      ensures cache.Some? ==> r == Success(Decoded(env, cache.value))
    {
      if cache.None? {
        return Failure(CacheNotProvided);
      }
      var items := cache.value;
      var messages: seq<Update> := [];
      var i := 0;
      while i < |items|
        invariant 0 <= i <= |items|
        invariant messages == Decoded(env, items[..i])
      {
        var page := env.decode(items[i]);
        var j := 0;
        while j < |page|
          invariant 0 <= j <= |page|
          invariant messages == Decoded(env, items[..i]) + page[..j]
        {
          assert page[..j + 1] == page[..j] + [page[j]];
          messages := messages + [page[j]];
          j := j + 1;
        }
        assert items[..i + 1][..i] == items[..i];
        assert page[..j] == page;
        i := i + 1;
      }
      assert items[..i] == items;
      return Success(messages);
    }
  }

  lemma StoredNothing(cache: Option<seq<string>>)
    ensures Stored(cache, []) == cache
  {
    if cache.Some? {
      assert cache.value + [] == cache.value;
    }
  }

  lemma StoredTwice(cache: Option<seq<string>>, a: seq<string>, b: seq<string>)
    ensures Stored(Stored(cache, a), b) == Stored(cache, a + b)
  {
    if cache.Some? {
      ConcatAssoc(cache.value, a, b);
    }
  }

  // ---------------------------------------------------------------------
  // What the fetch loop promises

  /** The request from `offset` got the non-empty page `raw`, and the next
      one asks from one past the largest of `offset` and that page's
      `update_id`s. */
  predicate Link(env: Env, offset: int, raw: string, next: int) {
    && env.call(UpdatesRequest(Some(offset))) == Success(raw)
    && env.decode(raw) != []
    && next == Raise(offset, env.decode(raw)) + 1
  }

  /** Every request of `run` but the last is linked to the next one by the
      page it got, which was cached as it came. */
  predicate Chained(env: Env, run: Run) {
    && |run.offsets| - 1 <= |run.cached|
    && forall i :: 0 <= i < |run.offsets| - 1 ==> Link(env, run.offsets[i], run.cached[i], run.offsets[i + 1])
  }

  /** Each request after the first asks from one past the largest of the
      offset before and the `update_id`s of the page it got, whether or not
      those updates passed the filter; every page but the last was non-empty
      and cached as it came. */
  lemma {:induction false} PollChained(env: Env, offset: int, chats: Option<seq<int>>, horizon: int)
    requires Drains(env, horizon)
    ensures Chained(env, Poll(env, offset, chats, horizon))
    decreases Budget(offset, horizon)
  {
    var run := Poll(env, offset, chats, horizon);
    match env.call(UpdatesRequest(Some(offset)))
    case Failure(e) =>
    case Success(raw) =>
      var page := env.decode(raw);
      if page != [] {
        assert !Quiet(env, offset);
        var next := Raise(offset, page) + 1;
        var rest := Poll(env, next, chats, horizon);
        PollChained(env, next, chats, horizon);
        assert run == Run([offset] + rest.offsets, [raw] + rest.cached, Filter(page, chats) + rest.messages, rest.status);
        forall i | 0 <= i < |run.offsets| - 1
          ensures Link(env, run.offsets[i], run.cached[i], run.offsets[i + 1])
        {
          if i > 0 {
            assert run.offsets[i] == rest.offsets[i - 1] && run.offsets[i + 1] == rest.offsets[i];
            assert run.cached[i] == rest.cached[i - 1];
          }
        }
      }
  }

  /** The offsets of successive requests strictly increase, whatever the
      server answers. */
  lemma OffsetsIncrease(env: Env, offset: int, chats: Option<seq<int>>, horizon: int)
    requires Drains(env, horizon)
    ensures var offs := Poll(env, offset, chats, horizon).offsets;
            forall i, j :: 0 <= i < j < |offs| ==> offs[i] < offs[j]
  {
    var run := Poll(env, offset, chats, horizon);
    var offs := run.offsets;
    PollChained(env, offset, chats, horizon);
    forall k | 0 <= k < |offs| - 1 ensures offs[k] < offs[k + 1] {
      assert Link(env, offs[k], run.cached[k], offs[k + 1]);
    }
    forall i, j | 0 <= i < j < |offs| ensures offs[i] < offs[j] {
      ChainUp(offs, i, j);
    }
  }

  lemma {:induction false} ChainUp(offs: seq<int>, i: nat, j: nat)
    requires i < j < |offs|
    requires forall k :: 0 <= k < |offs| - 1 ==> offs[k] < offs[k + 1]
    ensures offs[i] < offs[j]
    decreases j - i
  {
    if i + 1 < j {
      ChainUp(offs, i + 1, j);
    }
  }

  /** How a run ends: done after an empty page, whose response was cached
      like every other, or failed at its last request, whose response was
      never cached. */
  predicate Ended(env: Env, run: Run) {
    var n := |run.offsets|;
    n >= 1 &&
    match run.status
    case Done =>
      && |run.cached| == n
      && env.call(UpdatesRequest(Some(run.offsets[n - 1]))) == Success(run.cached[n - 1])
      && env.decode(run.cached[n - 1]) == []
    case Failed(e) =>
      && |run.cached| == n - 1
      && env.call(UpdatesRequest(Some(run.offsets[n - 1]))) == Failure(e)
  }

  /** The run ends at the first empty page or at the first failing call. */
  lemma {:induction false} PollEnds(env: Env, offset: int, chats: Option<seq<int>>, horizon: int)
    requires Drains(env, horizon)
    ensures Ended(env, Poll(env, offset, chats, horizon))
    decreases Budget(offset, horizon)
  {
    match env.call(UpdatesRequest(Some(offset)))
    case Failure(e) =>
    case Success(raw) =>
      var page := env.decode(raw);
      if page != [] {
        assert !Quiet(env, offset);
        var rest := Poll(env, Raise(offset, page) + 1, chats, horizon);
        PollEnds(env, Raise(offset, page) + 1, chats, horizon);
        EndedCons(env, offset, raw, Filter(page, chats), rest);
      }
  }

  /** A request in front of a run that ended leaves it ended the same way. */
  lemma EndedCons(env: Env, offset: int, raw: string, passed: seq<Update>, rest: Run)
    requires Ended(env, rest)
    ensures Ended(env, Run([offset] + rest.offsets, [raw] + rest.cached, passed + rest.messages, rest.status))
  {
    var run := Run([offset] + rest.offsets, [raw] + rest.cached, passed + rest.messages, rest.status);
    var k := |rest.offsets|;
    assert run.offsets[k] == rest.offsets[k - 1];
    if rest.status.Done? {
      assert run.cached[k] == rest.cached[k - 1];
    }
  }

  /** An empty first page: one request, its response cached, nothing yielded. */
  lemma EmptyFirstPage(env: Env, offset: int, chats: Option<seq<int>>, horizon: int, raw: string)
    requires Drains(env, horizon)
    requires env.call(UpdatesRequest(Some(offset))) == Success(raw) && env.decode(raw) == []
    ensures Poll(env, offset, chats, horizon) == Run([offset], [raw], [], Done)
  {
  }

  lemma DecodedSnoc(env: Env, raws: seq<string>, raw: string)
    ensures Decoded(env, raws + [raw]) == Decoded(env, raws) + env.decode(raw)
  {
    assert (raws + [raw])[..|raws|] == raws;
  }

  /** A cached response with no updates adds nothing to what passes the
      chat filter: the run that stops at an empty page yields nothing for it. */
  lemma EmptyResponseAddsNothing(env: Env, raws: seq<string>, raw: string, chats: Option<seq<int>>)
    requires env.decode(raw) == []
    ensures Filter(Decoded(env, raws + [raw]), chats) == Filter(Decoded(env, raws), chats)
  {
    DecodedSnoc(env, raws, raw);
    assert Decoded(env, raws) + [] == Decoded(env, raws);
  }

  /** Splitting the cached responses splits what they decode to. */
  lemma {:induction false} DecodedAppend(env: Env, a: seq<string>, b: seq<string>)
    ensures Decoded(env, a + b) == Decoded(env, a) + Decoded(env, b)
    decreases |b|
  {
    if b == [] {
      assert a + b == a;
    } else {
      var c := b[..|b| - 1];
      assert (a + b)[..|a + b| - 1] == a + c;
      DecodedAppend(env, a, c);
      ConcatAssoc(Decoded(env, a), Decoded(env, c), env.decode(Last(b)));
    }
  }

  /** The updates yielded are exactly those of the cached responses that
      pass the chat filter, page after page and in order within each page. */
  predicate YieldsFiltered(env: Env, run: Run, chats: Option<seq<int>>) {
    run.messages == Filter(Decoded(env, run.cached), chats)
  }

  lemma {:induction false} PollYieldsFilteredCache(env: Env, offset: int, chats: Option<seq<int>>, horizon: int)
    requires Drains(env, horizon)
    ensures YieldsFiltered(env, Poll(env, offset, chats, horizon), chats)
    decreases Budget(offset, horizon)
  {
    match env.call(UpdatesRequest(Some(offset)))
    case Failure(e) =>
      FilterBounds([]);
    case Success(raw) =>
      var page := env.decode(raw);
      if page == [] {
        YieldsCons(env, raw, [], chats, Run([], [], [], Done));
      } else {
        assert !Quiet(env, offset);
        var rest := Poll(env, Raise(offset, page) + 1, chats, horizon);
        PollYieldsFilteredCache(env, Raise(offset, page) + 1, chats, horizon);
        YieldsCons(env, raw, [offset], chats, rest);
      }
  }

  /** A page in front of a run that yields its filtered cache: the run with
      the page cached and its filtered updates yielded first does too. */
  lemma YieldsCons(env: Env, raw: string, offsets: seq<int>, chats: Option<seq<int>>, rest: Run)
    requires YieldsFiltered(env, rest, chats)
    ensures YieldsFiltered(env, Run(offsets + rest.offsets, [raw] + rest.cached,
                                    Filter(env.decode(raw), chats) + rest.messages, rest.status), chats)
  {
    assert Decoded(env, [raw]) == env.decode(raw) by {
      assert [raw][..0] == [];
    }
    DecodedAppend(env, [raw], rest.cached);
    FilterAppend(env.decode(raw), Decoded(env, rest.cached), chats);
  }

  /** Two runs made the same requests, cached the same responses and ended
      the same way. */
  predicate SameRequests(a: Run, b: Run) {
    a.offsets == b.offsets && a.cached == b.cached && a.status == b.status
  }

  /** The chat filter decides only what is yielded: the requests made and
      the responses cached are the same whatever the chat list, so updates
      that are filtered out still move the offset on. */
  lemma FilterKeepsRequests(env: Env, offset: int, chats: Option<seq<int>>,
                            other: Option<seq<int>>, horizon: int)
    requires Drains(env, horizon)
    ensures SameRequests(Poll(env, offset, chats, horizon), Poll(env, offset, other, horizon))
  {
    PollChained(env, offset, chats, horizon);
    PollEnds(env, offset, chats, horizon);
    PollChained(env, offset, other, horizon);
    PollEnds(env, offset, other, horizon);
    RunsAgree(env, Poll(env, offset, chats, horizon), Poll(env, offset, other, horizon));
  }

  /** The server's answers decide the run: two chained runs that ended and
      start from the same offset made the same requests, cached the same
      responses and ended the same way. */
  lemma RunsAgree(env: Env, a: Run, b: Run)
    requires Chained(env, a) && Ended(env, a) && Chained(env, b) && Ended(env, b)
    requires a.offsets[0] == b.offsets[0]
    ensures SameRequests(a, b)
  {
    var na, nb := |a.offsets|, |b.offsets|;
    if na < nb {
      AgreeUpTo(env, a, b, na - 1);
      LinkAt(env, b, na - 1);
      assert false;
    } else if nb < na {
      AgreeUpTo(env, b, a, nb - 1);
      LinkAt(env, a, nb - 1);
      assert false;
    } else {
      AgreeUpTo(env, a, b, na - 1);
      forall i | 0 <= i < na ensures a.offsets[i] == b.offsets[i] {
        AgreeUpTo(env, a, b, i);
      }
      assert a.offsets == b.offsets;
      assert a.status == b.status;
      if a.status.Done? {
        assert a.cached[na - 1] == b.cached[na - 1];
      }
      assert a.cached == b.cached;
    }
  }

  lemma LinkAt(env: Env, run: Run, i: nat)
    requires Chained(env, run) && i < |run.offsets| - 1
    ensures Link(env, run.offsets[i], run.cached[i], run.offsets[i + 1])
  {
  }

  /** Two chained runs from the same offset agree on every request up to
      the `k`-th, and on the response to each one before it. */
  lemma {:induction false} AgreeUpTo(env: Env, a: Run, b: Run, k: nat)
    requires Chained(env, a) && Chained(env, b) && a.offsets != [] && b.offsets != []
    requires a.offsets[0] == b.offsets[0]
    requires k < |a.offsets| && k < |b.offsets|
    ensures a.offsets[k] == b.offsets[k]
    ensures forall j :: 0 <= j < k ==> a.cached[j] == b.cached[j]
  {
    if k > 0 {
      AgreeUpTo(env, a, b, k - 1);
      assert Link(env, a.offsets[k - 1], a.cached[k - 1], a.offsets[k]);
      assert Link(env, b.offsets[k - 1], b.cached[k - 1], b.offsets[k]);
    }
  }

  /** Without a chat filter, reading back the responses a fetch cached gives
      exactly the updates it yielded. */
  lemma CacheReplaysFetch(env: Env, offset: int, horizon: int)
    requires Drains(env, horizon)
    ensures var run := Poll(env, offset, None, horizon);
            Decoded(env, run.cached) == run.messages
  {
    var run := Poll(env, offset, None, horizon);
    PollYieldsFilteredCache(env, offset, None, horizon);
    assert YieldsFiltered(env, run, None);
    FilterBounds(Decoded(env, run.cached));
  }
}
