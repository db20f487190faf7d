/**
 * The paginated `b2_list_file_names` stream (file-store/src/backends/b2.rs: `ListFileNamesStream`).
 *
 * The stream holds the original request options, a buffer of file infos not yet emitted and,
 * while a page is outstanding, the request that page answers. Polling first looks at the
 * outstanding page (if any), then emits the buffer's head, and ends once both are exhausted.
 */
module B2Listing {
  import opened Wrappers
  import opened Paths
  import opened Types

  /** A file as `b2_list_file_names` reports it; the name is given already split into parts. */
  datatype FileInfo = FileInfo(fileName: ObjectPath, contentLength: nat)

  datatype ListFileNamesRequest = ListFileNamesRequest(
    bucketId: string,
    startFileName: Option<string>,
    maxFileCount: Option<nat>,
    prefix: Option<string>,
    delimiter: Option<string>)

  datatype ListFileNamesResponse = ListFileNamesResponse(files: seq<FileInfo>, nextFileName: Option<string>)

  datatype Pager = Pager(options: ListFileNamesRequest, results: seq<FileInfo>, inFlight: Option<ListFileNamesRequest>)

  /** `ListFileNamesStream::new`: the first page is requested with the options as given. */
  function NewPager(options: ListFileNamesRequest): (p: Pager)
    ensures p.inFlight == Some(options) && p.results == [] && p.options == options
  {
    Pager(options, [], Some(options))
  }

  /** The request following a page whose continuation cursor is `next`. */
  function FollowUp(options: ListFileNamesRequest, next: string): (r: ListFileNamesRequest)
    ensures r.startFileName == Some(next)
    ensures r.(startFileName := options.startFileName) == options
  {
    options.(startFileName := Some(next))
  }

  /**
   * One `poll_next`. `page` is what the outstanding request's future yields when polled
   * (`None`: not ready); it is ignored when no request is outstanding.
   */
  function PollNext(p: Pager, page: Option<StorageResult<ListFileNamesResponse>>)
    : (r: (Pager, Poll<Option<StorageResult<FileInfo>>>))
    ensures r.0.options == p.options
    ensures p.inFlight.None? || page.None? ==> r.0.inFlight == p.inFlight
    ensures p.inFlight.Some? && page.Some? && page.value.Err? ==>
      r == (p.(inFlight := None), Ready(Some(Err(page.value.error))))
    ensures p.inFlight.Some? && page.Some? && page.value.Ok? ==>
      r.0.inFlight == (if page.value.value.nextFileName.Some?
                       then Some(FollowUp(p.options, page.value.value.nextFileName.value)) else None)
    ensures r.1 == Ready(None) ==> r.0.results == [] && r.0.inFlight.None?
    ensures p.inFlight.None? && p.results == [] ==> r.1 == Ready(None)
    ensures r.1.Ready? && r.1.value.Some? && r.1.value.value.Ok? ==>
      [r.1.value.value.value] + r.0.results ==
        p.results + (if p.inFlight.Some? && page.Some? && page.value.Ok? then page.value.value.files else [])
    ensures r.1.Pending? || r.1 == Ready(None) || (r.1.value.Some? && r.1.value.value.Err?) ==>
      r.0.results == p.results + (if p.inFlight.Some? && page.Some? && page.value.Ok? then page.value.value.files else [])
  {
    var (p', failure) := Receive(p, page);
    if failure.Some? then (p', Ready(Some(Err(failure.value)))) else Emit(p')
  }

  /**
   * What one poll yields, in terms of the buffer once the delivered page joined it: its head
   * when it is not empty; otherwise Pending while a request is outstanding and the end when none is.
   */
  lemma PollNextOutcome(p: Pager, page: Option<StorageResult<ListFileNamesResponse>>)
    ensures var r := PollNext(p, page);
      var failed := p.inFlight.Some? && page.Some? && page.value.Err?;
      var buffered := p.results + (if p.inFlight.Some? && page.Some? && page.value.Ok? then page.value.value.files else []);
      && (r.1.Pending? ==> r.0.results == [] && r.0.inFlight.Some?)
      && (r.1.Pending? <==> !failed && buffered == [] && r.0.inFlight.Some?)
      && (r.1 == Ready(None) <==> !failed && buffered == [] && r.0.inFlight.None?)
      && (!failed && buffered != [] ==> r.1 == Ready(Some(Ok(buffered[0]))) && r.0.results == buffered[1..])
  {
  }

  /**
   * The last buffered file is still emitted when nothing is outstanding: after the poll the
   * buffer is empty and no request is in flight, yet the poll yields an item, not the end.
   */
  lemma LastBufferedFileEmitted(options: ListFileNamesRequest, f: FileInfo, page: Option<StorageResult<ListFileNamesResponse>>)
    ensures PollNext(Pager(options, [f], None), page) == (Pager(options, [], None), Ready(Some(Ok(f))))
  {
  }

  /**
   * The first half of `poll_next`: a delivered page is appended to the buffer and, when it has
   * a cursor, replaced by the follow-up request; a failed page clears the outstanding request
   * and is reported.
   */
  function Receive(p: Pager, page: Option<StorageResult<ListFileNamesResponse>>): (r: (Pager, Option<StorageError>))
    ensures r.0.options == p.options
    ensures r.1.Some? <==> p.inFlight.Some? && page.Some? && page.value.Err?
  {
    if p.inFlight.Some? && page.Some? then
      match page.value
      case Ok(response) =>
        var inFlight := if response.nextFileName.Some?
                        then Some(FollowUp(p.options, response.nextFileName.value)) else None;
        (p.(results := p.results + response.files, inFlight := inFlight), None)
      case Err(e) => (p.(inFlight := None), Some(e))
    else (p, None)
  }

  /** The second half of `poll_next`: the buffer's head, else the end once no page is outstanding. */
  function Emit(p: Pager): (r: (Pager, Poll<Option<StorageResult<FileInfo>>>))
    ensures r.0.options == p.options && r.0.inFlight == p.inFlight
    ensures r.1.Ready? && r.1.value.Some? ==> r.1.value.value.Ok? && [r.1.value.value.value] + r.0.results == p.results
    ensures r.1.Pending? || r.1 == Ready(None) ==> r.0.results == p.results == []
    ensures r.1 == Ready(None) <==> p.results == [] && p.inFlight.None?
  {
    if p.results != [] then (p.(results := p.results[1..]), Ready(Some(Ok(p.results[0]))))
    else if p.inFlight.None? then (p, Ready(None))
    else (p, Pending)
  }

  /** The files of the successful pages, in page order. */
  function PageFiles(pages: seq<StorageResult<ListFileNamesResponse>>): seq<FileInfo> {
    if pages == [] then []
    else (if pages[0].Ok? then pages[0].value.files else []) + PageFiles(pages[1..])
  }

  lemma {:induction false} PageFilesAppend(a: seq<StorageResult<ListFileNamesResponse>>,
                                           b: seq<StorageResult<ListFileNamesResponse>>)
    ensures PageFiles(a + b) == PageFiles(a) + PageFiles(b)
  {
    if a == [] {
      assert a + b == b;
    } else {
      assert (a + b)[0] == a[0];
      assert (a + b)[1..] == a[1..] + b;
      PageFilesAppend(a[1..], b);
    }
  }

  /** The pages a schedule of future polls delivers, dropping the polls that were not ready. */
  function Delivered<T>(schedule: seq<Option<T>>): seq<T> {
    if schedule == [] then []
    else (if schedule[0].Some? then [schedule[0].value] else []) + Delivered(schedule[1..])
  }

  lemma {:induction false} DeliveredAppend<T>(a: seq<Option<T>>, b: seq<Option<T>>)
    ensures Delivered(a + b) == Delivered(a) + Delivered(b)
  {
    if a == [] {
      assert a + b == b;
    } else {
      assert (a + b)[0] == a[0];
      assert (a + b)[1..] == a[1..] + b;
      DeliveredAppend(a[1..], b);
    }
  }

  /**
   * What a consumer has seen of the stream: the items emitted, the requests issued, the pages
   * received, how many polls of the outstanding future were made, and whether the stream ended.
   */
  datatype Trace = Trace(emitted: seq<StorageResult<FileInfo>>,
                         requests: seq<ListFileNamesRequest>,
                         pages: seq<StorageResult<ListFileNamesResponse>>,
                         polls: nat,
                         finished: bool)

  /** `page` asked for a follow-up page. */
  predicate Continues(page: StorageResult<ListFileNamesResponse>) {
    page.Ok? && page.value.nextFileName.Some?
  }

  /** Each request after the first follows up on the page before it, which asked for a successor. */
  predicate Chained(options: ListFileNamesRequest, requests: seq<ListFileNamesRequest>,
                    pages: seq<StorageResult<ListFileNamesResponse>>) {
    forall i | 0 <= i < |pages| && i + 1 < |requests| ::
      Continues(pages[i]) && requests[i + 1] == FollowUp(options, pages[i].value.nextFileName.value)
  }

  /**
   * The pager's invariant relative to what was seen so far: the first request carries the
   * options and the later ones are chained; the outstanding request is the last one issued,
   * and without one the last page asked for no successor; the buffer holds exactly the
   * successful pages' files not yet emitted; the only errors emitted are the failed pages.
   */
  predicate PagerInv(p: Pager, t: Trace) {
    && |t.requests| == |t.pages| + (if p.inFlight.Some? then 1 else 0)
    && 0 < |t.requests| && t.requests[0] == p.options
    && Chained(p.options, t.requests, t.pages)
    && (p.inFlight.Some? ==> p.inFlight.value == t.requests[|t.requests| - 1])
    && (p.inFlight.None? ==> 0 < |t.pages| && !Continues(t.pages[|t.pages| - 1]))
    && Oks(t.emitted) + p.results == PageFiles(t.pages)
    && Errs(t.emitted) == Errs(t.pages)
  }

  /** The trace after the first half of a poll that used `page`. */
  function RecordReceive(p: Pager, page: Option<StorageResult<ListFileNamesResponse>>, t: Trace, p': Pager,
                         failure: Option<StorageError>): Trace
  {
    var delivered := p.inFlight.Some? && page.Some?;
    Trace(
      t.emitted + (if failure.Some? then [Err(failure.value)] else []),
      t.requests + (if delivered && p'.inFlight.Some? then [p'.inFlight.value] else []),
      t.pages + (if delivered then [page.value] else []),
      t.polls + (if p.inFlight.Some? then 1 else 0),
      false)
  }

  /** The trace after the second half of a poll, which produced `out`. */
  function RecordEmit(t: Trace, out: Poll<Option<StorageResult<FileInfo>>>): Trace {
    t.(emitted := t.emitted + (if out.Ready? && out.value.Some? then [out.value.value] else []),
       finished := out == Ready(None))
  }

  /** The trace after a whole poll. */
  function Record(p: Pager, page: Option<StorageResult<ListFileNamesResponse>>, t: Trace): Trace {
    var (p', failure) := Receive(p, page);
    var t' := RecordReceive(p, page, t, p', failure);
    if failure.Some? then t' else RecordEmit(t', Emit(p').1)
  }

  lemma OnePage(x: StorageResult<ListFileNamesResponse>)
    ensures PageFiles([x]) == (if x.Ok? then x.value.files else [])
  {
    assert [x][1..] == [];
  }

  /** Receiving the answer to the last request keeps the chain, with its follow-up if it asks for one. */
  lemma ChainedExtend(options: ListFileNamesRequest, requests: seq<ListFileNamesRequest>,
                      pages: seq<StorageResult<ListFileNamesResponse>>,
                      page: StorageResult<ListFileNamesResponse>, next: seq<ListFileNamesRequest>)
    requires Chained(options, requests, pages) && |requests| == |pages| + 1
    requires |next| <= 1
    requires next != [] ==> Continues(page) && next[0] == FollowUp(options, page.value.nextFileName.value)
    ensures Chained(options, requests + next, pages + [page])
  {
    var rs := requests + next;
    var ps := pages + [page];
    forall i | 0 <= i < |ps| && i + 1 < |rs|
      ensures Continues(ps[i]) && rs[i + 1] == FollowUp(options, ps[i].value.nextFileName.value)
    {
      if i < |pages| {
        assert ps[i] == pages[i] && rs[i + 1] == requests[i + 1];
      } else {
        assert ps[i] == page && rs[i + 1] == next[0];
      }
    }
  }

  /** A page's files follow those of the pages before it. */
  lemma PageFilesSnoc(pages: seq<StorageResult<ListFileNamesResponse>>, page: StorageResult<ListFileNamesResponse>)
    ensures PageFiles(pages + [page]) == PageFiles(pages) + (if page.Ok? then page.value.files else [])
  {
    PageFilesAppend(pages, [page]);
    OnePage(page);
  }

  /** A page's error, if it failed, follows those of the pages before it. */
  lemma ErrsSnoc<T>(rs: seq<Result<T, StorageError>>, x: Result<T, StorageError>)
    ensures Errs(rs + [x]) == Errs(rs) + (if x.Err? then [x.error] else [])
  {
    ErrsAppend(rs, [x]);
    OneResult(x);
  }

  /** A good page's files join the end of what the pages delivered; it adds no error. */
  lemma GoodPageContents(emitted: seq<StorageResult<FileInfo>>, results: seq<FileInfo>,
                         pages: seq<StorageResult<ListFileNamesResponse>>, response: ListFileNamesResponse)
    requires Oks(emitted) + results == PageFiles(pages) && Errs(emitted) == Errs(pages)
    ensures Oks(emitted) + (results + response.files) == PageFiles(pages + [Ok(response)])
    ensures Errs(emitted) == Errs(pages + [Ok(response)])
  {
    PageFilesSnoc(pages, Ok(response));
    ErrsSnoc(pages, Ok(response));
    assert Errs(pages) + [] == Errs(pages);
    assert Oks(emitted) + (results + response.files) == (Oks(emitted) + results) + response.files;
  }

  /** A failed page delivers no files, and its error is emitted. */
  lemma FailedPageContents(emitted: seq<StorageResult<FileInfo>>, results: seq<FileInfo>,
                           pages: seq<StorageResult<ListFileNamesResponse>>, e: StorageError)
    requires Oks(emitted) + results == PageFiles(pages) && Errs(emitted) == Errs(pages)
    ensures Oks(emitted + [Err(e)]) + results == PageFiles(pages + [Err(e)])
    ensures Errs(emitted + [Err(e)]) == Errs(pages + [Err(e)])
  {
    PageFilesSnoc(pages, Err(e));
    ErrsSnoc(pages, Err(e));
    ErrsSnoc(emitted, Err(e));
    OksAppend(emitted, [Err(e)]);
    OneResult<FileInfo, StorageError>(Err(e));
    assert Oks(emitted) + [] == Oks(emitted);
    assert PageFiles(pages) + [] == PageFiles(pages);
  }

  /** A received page adds its files to what is buffered, and a failed one adds its error to what is emitted. */
  lemma ReceiveContents(p: Pager, page: StorageResult<ListFileNamesResponse>, t: Trace)
    requires Oks(t.emitted) + p.results == PageFiles(t.pages) && Errs(t.emitted) == Errs(t.pages)
    requires p.inFlight.Some?
    ensures var r := Receive(p, Some(page)); var t' := RecordReceive(p, Some(page), t, r.0, r.1);
      Oks(t'.emitted) + r.0.results == PageFiles(t'.pages) && Errs(t'.emitted) == Errs(t'.pages)
  {
    var (p', failure) := Receive(p, Some(page));
    var t' := RecordReceive(p, Some(page), t, p', failure);
    assert t'.pages == t.pages + [page];
    match page
    case Ok(response) =>
      assert t'.emitted == t.emitted && p'.results == p.results + response.files;
      GoodPageContents(t.emitted, p.results, t.pages, response);
    case Err(e) =>
      assert t'.emitted == t.emitted + [Err(e)] && p'.results == p.results;
      FailedPageContents(t.emitted, p.results, t.pages, e);
  }

  lemma ReceiveDeliveredPreservesInv(p: Pager, page: StorageResult<ListFileNamesResponse>, t: Trace)
    requires PagerInv(p, t) && p.inFlight.Some?
    ensures var r := Receive(p, Some(page)); PagerInv(r.0, RecordReceive(p, Some(page), t, r.0, r.1))
  {
    var (p', failure) := Receive(p, Some(page));
    var t' := RecordReceive(p, Some(page), t, p', failure);
    ReceiveContents(p, page, t);
    var next := if p'.inFlight.Some? then [p'.inFlight.value] else [];
    assert t'.requests == t.requests + next && t'.pages == t.pages + [page];
    assert p'.options == p.options;
    ChainedExtend(p.options, t.requests, t.pages, page, next);
  }

  lemma ReceivePreservesInv(p: Pager, page: Option<StorageResult<ListFileNamesResponse>>, t: Trace)
    requires PagerInv(p, t)
    ensures var r := Receive(p, page); PagerInv(r.0, RecordReceive(p, page, t, r.0, r.1))
  {
    if p.inFlight.Some? && page.Some? {
      ReceiveDeliveredPreservesInv(p, page.value, t);
    } else {
      var (p', failure) := Receive(p, page);
      var t' := RecordReceive(p, page, t, p', failure);
      assert p' == p && failure.None?;
      assert t'.pages == t.pages && t'.requests == t.requests && t'.emitted == t.emitted;
    }
  }

  /** Moving files from the buffer to the emitted items, without touching the requests, keeps the invariant. */
  lemma InvFrame(p: Pager, t: Trace, p': Pager, t': Trace)
    requires PagerInv(p, t)
    requires p'.options == p.options && p'.inFlight == p.inFlight
    requires t'.requests == t.requests && t'.pages == t.pages
    requires Oks(t'.emitted) + p'.results == Oks(t.emitted) + p.results
    requires Errs(t'.emitted) == Errs(t.emitted)
    ensures PagerInv(p', t')
  {
  }

  /** Emitting the file `x` moves it from the buffered results to the emitted successes. */
  lemma EmitOne(emitted: seq<StorageResult<FileInfo>>, x: FileInfo, rest: seq<FileInfo>)
    ensures Oks(emitted + [Ok(x)]) + rest == Oks(emitted) + ([x] + rest)
    ensures Errs(emitted + [Ok(x)]) == Errs(emitted)
  {
    OksAppend(emitted, [Ok(x)]);
    ErrsAppend(emitted, [Ok(x)]);
    OneResult<FileInfo, StorageError>(Ok(x));
  }

  lemma EmitContents(p: Pager, t: Trace)
    ensures var r := Emit(p); var t' := RecordEmit(t, r.1);
      Oks(t'.emitted) + r.0.results == Oks(t.emitted) + p.results && Errs(t'.emitted) == Errs(t.emitted)
  {
    var (p', out) := Emit(p);
    if out.Ready? && out.value.Some? {
      var x := out.value.value.value;
      assert RecordEmit(t, out).emitted == t.emitted + [Ok(x)];
      EmitOne(t.emitted, x, p'.results);
    } else {
      assert RecordEmit(t, out).emitted == t.emitted;
    }
  }

  lemma EmitPreservesInv(p: Pager, t: Trace)
    requires PagerInv(p, t)
    ensures var r := Emit(p); PagerInv(r.0, RecordEmit(t, r.1))
  {
    var (p', out) := Emit(p);
    var t' := RecordEmit(t, out);
    EmitContents(p, t);
    InvFrame(p, t, p', t');
  }

  lemma PollPreservesInv(p: Pager, page: Option<StorageResult<ListFileNamesResponse>>, t: Trace)
    requires PagerInv(p, t)
    ensures PagerInv(PollNext(p, page).0, Record(p, page, t))
    ensures Record(p, page, t).finished <==> PollNext(p, page).1 == Ready(None)
  {
    var (p', failure) := Receive(p, page);
    ReceivePreservesInv(p, page, t);
    if failure.None? {
      EmitPreservesInv(p', RecordReceive(p, page, t, p', failure));
    }
  }

  /** The schedule entry the next poll consumes: the head when a page is outstanding, nothing otherwise. */
  function NextPage(p: Pager, schedule: seq<Option<StorageResult<ListFileNamesResponse>>>)
    : Option<StorageResult<ListFileNamesResponse>>
    requires p.inFlight.Some? ==> schedule != []
  {
    if p.inFlight.Some? then schedule[0] else None
  }

  lemma RecordDelivers(p: Pager, schedule: seq<Option<StorageResult<ListFileNamesResponse>>>, t: Trace)
    requires p.inFlight.Some? ==> schedule != []
    ensures var t' := Record(p, NextPage(p, schedule), t);
      && t.polls <= t'.polls <= t.polls + |schedule|
      && t'.pages == t.pages + Delivered(schedule[..t'.polls - t.polls])
      && schedule[t'.polls - t.polls..] == (if p.inFlight.Some? then schedule[1..] else schedule)
  {
    var page := NextPage(p, schedule);
    var (p', failure) := Receive(p, page);
    var t1 := RecordReceive(p, page, t, p', failure);
    var t' := Record(p, page, t);
    assert t'.pages == t1.pages && t'.polls == t1.polls;
    if p.inFlight.Some? {
      assert schedule[..1] == [schedule[0]];
      assert schedule[..1][1..] == [];
    } else {
      assert schedule[..0] == [];
    }
  }

  /** A poll marks the trace finished exactly when it ends the stream. */
  lemma RecordFinished(p: Pager, page: Option<StorageResult<ListFileNamesResponse>>, t: Trace)
    ensures Record(p, page, t).finished <==> PollNext(p, page).1 == Ready(None)
  {
  }

  lemma DeliveredSplit<T>(schedule: seq<Option<T>>, k: nat, n: nat)
    requires k <= n <= |schedule|
    ensures Delivered(schedule[..n]) == Delivered(schedule[..k]) + Delivered(schedule[k..][..n - k])
  {
    assert schedule[..n] == schedule[..k] + schedule[k..][..n - k];
    DeliveredAppend(schedule[..k], schedule[k..][..n - k]);
  }

  /**
   * Polls the stream until it ends or until the outstanding future has used up `schedule`
   * (the successive results of polling it; `None` = not ready yet).
   */
  function Drain(p: Pager, schedule: seq<Option<StorageResult<ListFileNamesResponse>>>, t: Trace): (r: (Pager, Trace))
    decreases |schedule|, |p.results|
  {
    if p.inFlight.Some? && schedule == [] then
      (p, t)
    else
      var page := NextPage(p, schedule);
      var step := PollNext(p, page);
      var t' := Record(p, page, t);
      if step.1 == Ready(None) then
        (step.0, t')
      else
        Drain(step.0, if p.inFlight.Some? then schedule[1..] else schedule, t')
  }

  /**
   * Draining keeps the pager's invariant: requests follow the cursors, the emitted files are
   * the delivered pages' files in order, and the only errors are the failed pages.
   */
  lemma {:induction false} DrainKeepsInv(p: Pager, schedule: seq<Option<StorageResult<ListFileNamesResponse>>>, t: Trace)
    requires PagerInv(p, t) && !t.finished
    decreases |schedule|, |p.results|
    ensures var r := Drain(p, schedule, t);
      && PagerInv(r.0, r.1)
      && r.0.options == p.options
      && (r.1.finished ==> r.0.results == [] && r.0.inFlight.None?)
      && (!r.1.finished ==> r.0.inFlight.Some?)
  {
    if !(p.inFlight.Some? && schedule == []) {
      var page := NextPage(p, schedule);
      var step := PollNext(p, page);
      var t' := Record(p, page, t);
      PollPreservesInv(p, page, t);
      if step.1 != Ready(None) {
        DrainKeepsInv(step.0, if p.inFlight.Some? then schedule[1..] else schedule, t');
      }
    }
  }

  lemma PagesCompose<T>(a: seq<T>, b: seq<T>, c: seq<T>, schedule: seq<Option<T>>, k: nat, n: nat)
    requires k <= n <= |schedule|
    requires b == a + Delivered(schedule[..k])
    requires c == b + Delivered(schedule[k..][..n - k])
    ensures c == a + Delivered(schedule[..n])
  {
    DeliveredSplit(schedule, k, n);
  }

  /** One poll followed by a drain of the rest of the schedule composes into a drain of all of it. */
  lemma PollsCompose<T>(schedule: seq<Option<T>>, rest: seq<Option<T>>, a: seq<T>, b: seq<T>, c: seq<T>,
                        n0: int, n1: int, n2: int, finished: bool)
    requires n0 <= n1 <= n0 + |schedule| && schedule[n1 - n0..] == rest
    requires b == a + Delivered(schedule[..n1 - n0])
    requires n1 <= n2 <= n1 + |rest| && (!finished ==> n2 == n1 + |rest|)
    requires c == b + Delivered(rest[..n2 - n1])
    ensures n0 <= n2 <= n0 + |schedule| && (!finished ==> n2 == n0 + |schedule|)
    ensures c == a + Delivered(schedule[..n2 - n0])
  {
    PagesCompose(a, b, c, schedule, n1 - n0, n2 - n0);
  }

  /** The pages a drain received are exactly what the schedule delivered, in order. */
  lemma {:induction false} DrainPages(p: Pager, schedule: seq<Option<StorageResult<ListFileNamesResponse>>>, t: Trace)
    decreases |schedule|, |p.results|
    ensures var r := Drain(p, schedule, t);
      && (!r.1.finished ==> r.1.polls == t.polls + |schedule|)
      && t.polls <= r.1.polls <= t.polls + |schedule|
      && r.1.pages == t.pages + Delivered(schedule[..r.1.polls - t.polls])
  {
    if p.inFlight.Some? && schedule == [] {
      assert Drain(p, schedule, t) == (p, t);
      assert schedule[..0] == [];
      assert Delivered(schedule[..0]) == [];
    } else {
      var page := NextPage(p, schedule);
      var step := PollNext(p, page);
      var t' := Record(p, page, t);
      RecordDelivers(p, schedule, t);
      RecordFinished(p, page, t);
      if step.1 == Ready(None) {
        assert Drain(p, schedule, t) == (step.0, t');
      } else {
        var rest := if p.inFlight.Some? then schedule[1..] else schedule;
        DrainPages(step.0, rest, t');
        var r := Drain(step.0, rest, t');
        assert Drain(p, schedule, t) == r;
        PollsCompose(schedule, rest, t.pages, t'.pages, r.1.pages, t.polls, t'.polls, r.1.polls, r.1.finished);
      }
    }
  }

  /** What the invariant says once draining stopped, in terms of the original options. */
  lemma InvAtStop(p: Pager, t: Trace)
    requires PagerInv(p, t)
    requires t.finished ==> p.results == [] && p.inFlight.None?
    requires !t.finished ==> p.inFlight.Some?
    ensures 0 < |t.requests| && t.requests[0] == p.options
    ensures forall i | 0 <= i < |t.pages| && i + 1 < |t.requests| ::
      Continues(t.pages[i]) && t.requests[i + 1] == FollowUp(p.options, t.pages[i].value.nextFileName.value)
    ensures |t.requests| == |t.pages| + (if t.finished then 0 else 1)
    ensures forall i | 0 <= i < |t.pages| - 1 :: t.pages[i].Ok?
    ensures Oks(t.emitted) <= PageFiles(t.pages)
    ensures t.finished ==> Oks(t.emitted) == PageFiles(t.pages)
    ensures t.finished ==> 0 < |t.pages| && !Continues(t.pages[|t.pages| - 1])
    ensures Errs(t.emitted) == Errs(t.pages)
  {
    forall i | 0 <= i < |t.pages| - 1
      ensures t.pages[i].Ok?
    {
      assert i + 1 < |t.requests|;
    }
  }

  /** The trace the stream starts from: the first request issued, nothing else seen. */
  function InitialTrace(options: ListFileNamesRequest): Trace {
    Trace([], [options], [], 0, false)
  }

  /** Draining a fresh stream keeps the invariant and stops at the end or when the schedule runs out. */
  lemma DrainFromStart(options: ListFileNamesRequest, schedule: seq<Option<StorageResult<ListFileNamesResponse>>>)
    ensures var r := Drain(NewPager(options), schedule, InitialTrace(options));
      && PagerInv(r.0, r.1) && r.0.options == options
      && (r.1.finished ==> r.0.results == [] && r.0.inFlight.None?)
      && (!r.1.finished ==> r.0.inFlight.Some?)
  {
    assert PageFiles([]) == [] && Oks<FileInfo, StorageError>([]) == [];
    DrainKeepsInv(NewPager(options), schedule, InitialTrace(options));
  }

  /** The requests of a drained stream: the options first, then the follow-ups. */
  lemma DrainedRequests(options: ListFileNamesRequest, schedule: seq<Option<StorageResult<ListFileNamesResponse>>>)
    ensures var t := Drain(NewPager(options), schedule, InitialTrace(options)).1;
      && 0 < |t.requests| && t.requests[0] == options
      && Chained(options, t.requests, t.pages)
      && |t.requests| == |t.pages| + (if t.finished then 0 else 1)
      && (t.finished ==> 0 < |t.pages| && !Continues(t.pages[|t.pages| - 1]))
      && (forall i | 0 <= i < |t.pages| - 1 :: t.pages[i].Ok?)
  {
    DrainFromStart(options, schedule);
    var r := Drain(NewPager(options), schedule, InitialTrace(options));
    InvAtStop(r.0, r.1);
  }

  /** What a drained stream emitted, relative to the pages it received. */
  lemma DrainedContents(options: ListFileNamesRequest, schedule: seq<Option<StorageResult<ListFileNamesResponse>>>)
    ensures var t := Drain(NewPager(options), schedule, InitialTrace(options)).1;
      && Oks(t.emitted) <= PageFiles(t.pages)
      && (t.finished ==> Oks(t.emitted) == PageFiles(t.pages))
      && Errs(t.emitted) == Errs(t.pages)
  {
    DrainFromStart(options, schedule);
    var r := Drain(NewPager(options), schedule, InitialTrace(options));
    InvAtStop(r.0, r.1);
  }

  /** The pages a drained stream received are those the schedule delivered before it stopped. */
  lemma DrainedPages(options: ListFileNamesRequest, schedule: seq<Option<StorageResult<ListFileNamesResponse>>>)
    ensures var t := Drain(NewPager(options), schedule, InitialTrace(options)).1;
      && t.polls <= |schedule| && t.pages == Delivered(schedule[..t.polls])
      && (!t.finished ==> t.polls == |schedule|)
  {
    DrainPagesFromEmpty(NewPager(options), schedule, InitialTrace(options));
  }

  lemma DrainPagesFromEmpty(p: Pager, schedule: seq<Option<StorageResult<ListFileNamesResponse>>>, t0: Trace)
    requires t0.pages == [] && t0.polls == 0
    ensures var t := Drain(p, schedule, t0).1;
      && t.polls <= |schedule| && t.pages == Delivered(schedule[..t.polls])
      && (!t.finished ==> t.polls == |schedule|)
  {
    DrainPages(p, schedule, t0);
    var t := Drain(p, schedule, t0).1;
    assert t.pages == [] + Delivered(schedule[..t.polls]);
  }

  /**
   * The whole stream for `options` while its page futures yield `schedule`: what it emitted,
   * the requests it issued and the pages it received.
   */
  function ListFileNames(options: ListFileNamesRequest,
                         schedule: seq<Option<StorageResult<ListFileNamesResponse>>>): (t: Trace)
    ensures 0 < |t.requests| && t.requests[0] == options
    ensures forall i | 0 <= i < |t.pages| && i + 1 < |t.requests| ::
      Continues(t.pages[i]) && t.requests[i + 1] == FollowUp(options, t.pages[i].value.nextFileName.value)
    ensures |t.requests| == |t.pages| + (if t.finished then 0 else 1)
    ensures t.polls <= |schedule| && t.pages == Delivered(schedule[..t.polls])
    ensures !t.finished ==> t.polls == |schedule|
    ensures forall i | 0 <= i < |t.pages| - 1 :: t.pages[i].Ok?
    ensures Oks(t.emitted) <= PageFiles(t.pages)
    ensures t.finished ==> Oks(t.emitted) == PageFiles(t.pages)
    ensures t.finished ==> 0 < |t.pages| && !Continues(t.pages[|t.pages| - 1])
    ensures Errs(t.emitted) == Errs(t.pages)
  {
    DrainedRequests(options, schedule);
    DrainedContents(options, schedule);
    DrainedPages(options, schedule);
    Drain(NewPager(options), schedule, InitialTrace(options)).1
  }
}
