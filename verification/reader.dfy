/**
 * Turning an asynchronous reader into a stream of chunks (file-store/src/utils.rs: `ReaderStream`,
 * `into_data_stream`; file-store/src/backends/file.rs: `ReadStream`).
 *
 * Only the length of the read buffer matters to the behaviour: each read fills a prefix of it,
 * that prefix is split off as the chunk, and when what is left falls below the minimum size a
 * fresh buffer of the initial size replaces it.
 */
module Reader {
  import opened Wrappers
  import opened Paths
  import opened Types
  import opened FileErrors

  /** file.rs: the local backend reads with a 20 MiB buffer, renewed once below 1 MiB. */
  const InitialBufferSize: nat := 20 * 1024 * 1024
  const MinBufferSize: nat := 1 * 1024 * 1024

  /** The stream's state: its two size settings and how much room the current buffer has left. */
  datatype StreamState = StreamState(initial: nat, minimum: nat, buffer: nat)

  /** What one `poll_read` of the underlying reader does. */
  datatype ReadOutcome<E> = NotReady | ReadOk(data: Data) | ReadErr(error: E)

  /** The buffer never exceeds the initial size, and is below the minimum only while still untouched. */
  predicate Inv(s: StreamState) {
    s.buffer <= s.initial && (s.minimum <= s.buffer || s.buffer == s.initial)
  }

  /** `ReaderStream::stream`: a buffer of the initial size. */
  function Start(initial: nat, minimum: nat): (s: StreamState)
    ensures Inv(s) && s.buffer == initial && s.initial == initial && s.minimum == minimum
  {
    StreamState(initial, minimum, initial)
  }

  /** The reader respects the buffer it is handed: a read never returns more bytes than fit. */
  predicate Fits<E>(s: StreamState, o: ReadOutcome<E>) {
    o.ReadOk? ==> |o.data| <= s.buffer
  }

  /**
   * `inner_poll`: a read of zero bytes ends the stream; a read of `n` bytes yields them as a
   * chunk and shrinks the buffer by `n`, renewing it when the rest is below the minimum; a read
   * error is yielded as an item and leaves the stream as it was; a reader that is not ready
   * leaves the poll pending.
   */
  function PollStream<E>(s: StreamState, o: ReadOutcome<E>): (r: (Poll<Option<Result<Data, E>>>, StreamState))
    requires Fits(s, o)
    ensures r.1.initial == s.initial && r.1.minimum == s.minimum
    ensures Inv(s) ==> Inv(r.1)
    ensures o.NotReady? <==> r.0.Pending?
    ensures r.0 == Ready(None) <==> o == ReadOk([])
    ensures r.0.Ready? && r.0.value.Some? ==> r.0.value.value == (if o.ReadOk? then Ok(o.data) else Err(o.error))
    ensures o.ReadOk? && o.data != [] ==>
      (r.1.buffer == s.initial <==> s.buffer - |o.data| < s.minimum || s.buffer - |o.data| == s.initial)
    ensures o.ReadOk? && o.data != [] && s.minimum <= s.buffer - |o.data| ==> r.1.buffer == s.buffer - |o.data|
    ensures o.ReadOk? && o.data != [] && s.buffer - |o.data| < s.minimum ==> r.1.buffer == s.initial
    ensures !(o.ReadOk? && o.data != []) ==> r.1 == s
  {
    match o
    case NotReady => (Pending, s)
    case ReadErr(e) => (Ready(Some(Err(e))), s)
    case ReadOk(data) =>
      if |data| == 0 then (Ready(None), s)
      else
        var rest := s.buffer - |data|;
        (Ready(Some(Ok(data))), s.(buffer := if rest < s.minimum then s.initial else rest))
  }

  /** The items a run has yielded and whether the stream has ended. */
  datatype Run<E> = Run(items: seq<Result<Data, E>>, ended: bool, state: StreamState)

  /** The reader respects the buffer on every read the stream makes, up to the end of the stream. */
  predicate FitsAll<E>(s: StreamState, outcomes: seq<ReadOutcome<E>>)
    decreases |outcomes|
  {
    outcomes != [] ==>
      Fits(s, outcomes[0]) && (outcomes[0] != ReadOk([]) ==> FitsAll(PollStream(s, outcomes[0]).1, outcomes[1..]))
  }

  /** Polling the stream once per reader outcome, stopping when the stream ends. */
  function RunStream<E>(s: StreamState, outcomes: seq<ReadOutcome<E>>): (r: Run<E>)
    requires Inv(s) && FitsAll(s, outcomes)
    ensures Inv(r.state) && r.state.initial == s.initial
    ensures forall i | 0 <= i < |r.items| && r.items[i].Ok? :: 0 < |r.items[i].value| <= s.initial
    decreases |outcomes|
  {
    if outcomes == [] then Run([], false, s)
    else
      var (out, s') := PollStream(s, outcomes[0]);
      if out == Ready(None) then Run([], true, s)
      else
        var rest := RunStream(s', outcomes[1..]);
        var item := if out.Ready? then [out.value.value] else [];
        assert forall i | 0 <= i < |item| && item[i].Ok? :: 0 < |item[i].value| <= s.initial;
        assert forall i | |item| <= i < |item + rest.items| :: (item + rest.items)[i] == rest.items[i - |item|];
        Run(item + rest.items, rest.ended, rest.state)
  }

  /**
   * What the reader produced, independent of buffering: every non-empty read is a chunk, every
   * error an item, and the first empty read ends the stream.
   */
  function ReaderItems<E>(outcomes: seq<ReadOutcome<E>>): (r: (seq<Result<Data, E>>, bool)) {
    if outcomes == [] then ([], false)
    else
      match outcomes[0]
      case NotReady => ReaderItems(outcomes[1..])
      case ReadErr(e) => ([Err(e)] + ReaderItems(outcomes[1..]).0, ReaderItems(outcomes[1..]).1)
      case ReadOk(data) =>
        if data == [] then ([], true)
        else ([Ok(data)] + ReaderItems(outcomes[1..]).0, ReaderItems(outcomes[1..]).1)
  }

  /** Buffering changes neither the bytes nor their order nor the errors: the stream yields what the reader read. */
  lemma {:induction false} RunYieldsReaderItems<E>(s: StreamState, outcomes: seq<ReadOutcome<E>>)
    requires Inv(s) && FitsAll(s, outcomes)
    ensures RunStream(s, outcomes).items == ReaderItems(outcomes).0
    ensures RunStream(s, outcomes).ended == ReaderItems(outcomes).1
    decreases |outcomes|
  {
    if outcomes != [] {
      var (out, s') := PollStream(s, outcomes[0]);
      if out != Ready(None) {
        RunYieldsReaderItems(s', outcomes[1..]);
      }
    }
  }

  /** Once the reader reports the end, the stream's chunks concatenate to everything it read. */
  lemma {:induction false} RunConcat<E>(s: StreamState, outcomes: seq<ReadOutcome<E>>)
    requires Inv(s) && FitsAll(s, outcomes)
    ensures Concat(Oks(RunStream(s, outcomes).items)) == Concat(ReadData(outcomes))
    decreases |outcomes|
  {
    if outcomes != [] {
      var (out, s') := PollStream(s, outcomes[0]);
      if out != Ready(None) {
        RunConcat(s', outcomes[1..]);
        var rest := RunStream(s', outcomes[1..]).items;
        var item := if out.Ready? then [out.value.value] else [];
        assert RunStream(s, outcomes).items == item + rest;
        OksAppend(item, rest);
        var head := if outcomes[0].ReadOk? then [outcomes[0].data] else [];
        assert ReadData(outcomes) == head + ReadData(outcomes[1..]);
        assert Oks(item) == head by {
          if item != [] { OneResult(item[0]); }
        }
        ConcatAppend(head, ReadData(outcomes[1..]));
        ConcatAppend(head, Oks(rest));
      }
    }
  }

  /** The bytes of the reads up to the first empty one. */
  function ReadData<E>(outcomes: seq<ReadOutcome<E>>): seq<Data> {
    if outcomes == [] then []
    else if outcomes[0].ReadOk? && outcomes[0].data == [] then []
    else (if outcomes[0].ReadOk? then [outcomes[0].data] else []) + ReadData(outcomes[1..])
  }

  /**
   * Every read is offered at most the initial size and at least the smaller of the two settings
   * (the minimum, or the initial size when that is smaller).
   */
  lemma BufferWithinBounds(s: StreamState)
    requires Inv(s)
    ensures (if s.minimum <= s.initial then s.minimum else s.initial) <= s.buffer <= s.initial
  {
  }

  /**
   * With a minimum of zero the buffer is never renewed: a read that fills it leaves no room, and
   * from then on the only read that fits is an empty one, which ends the stream.
   */
  lemma ZeroMinimumRunsDry<E>(data: Data, o: ReadOutcome<E>)
    requires data != []
    ensures PollStream<E>(Start(|data|, 0), ReadOk(data)).1.buffer == 0
    ensures Fits(PollStream<E>(Start(|data|, 0), ReadOk(data)).1, o) ==>
      PollStream(PollStream<E>(Start(|data|, 0), ReadOk(data)).1, o).0 == Ready(None) || !o.ReadOk?
  {
    if o.ReadOk? && Fits(PollStream<E>(Start(|data|, 0), ReadOk(data)).1, o) {
      assert o.data == [];
    }
  }

  /** With an initial size of zero no read has room: the first read that completes ends the stream. */
  lemma ZeroInitialEndsAtOnce<E>(minimum: nat, o: ReadOutcome<E>)
    ensures Fits(Start(0, minimum), o) && o.ReadOk? ==> PollStream(Start(0, minimum), o).0 == Ready(None)
  {
    if Fits(Start(0, minimum), o) && o.ReadOk? {
      assert o.data == [];
    }
  }

  /** `ReadStream`: the local backend's read stream, whose read errors are storage errors for the file's path. */
  function FileOutcomes(path: ObjectPath, outcomes: seq<ReadOutcome<IoError>>): (r: seq<ReadOutcome<StorageError>>)
    ensures |r| == |outcomes|
    ensures forall i | 0 <= i < |r| ::
      r[i] == match outcomes[i]
              case NotReady => NotReady
              case ReadOk(d) => ReadOk(d)
              case ReadErr(e) => ReadErr(GetStorageError(e, path))
  {
    if outcomes == [] then []
    else
      [match outcomes[0]
       case NotReady => NotReady
       case ReadOk(d) => ReadOk(d)
       case ReadErr(e) => ReadErr(GetStorageError(e, path))]
      + FileOutcomes(path, outcomes[1..])
  }

  /**
   * The local file stream: chunks are at most 20 MiB and never empty, and every error is NotFound
   * for the file's path or OtherError.
   */
  function FileReadStream(path: ObjectPath, outcomes: seq<ReadOutcome<IoError>>): (r: Run<StorageError>)
    requires FitsAll(Start(InitialBufferSize, MinBufferSize), FileOutcomes(path, outcomes))
    ensures forall i | 0 <= i < |r.items| && r.items[i].Ok? :: 0 < |r.items[i].value| <= InitialBufferSize
    ensures forall i | 0 <= i < |r.items| && r.items[i].Err? ::
      r.items[i].error.kind == OtherError || r.items[i].error == NotFoundError(path)
  {
    var r := RunStream(Start(InitialBufferSize, MinBufferSize), FileOutcomes(path, outcomes));
    RunYieldsReaderItems(Start(InitialBufferSize, MinBufferSize), FileOutcomes(path, outcomes));
    FileErrorsOnly(path, outcomes);
    r
  }

  lemma {:induction false} FileErrorsOnly(path: ObjectPath, outcomes: seq<ReadOutcome<IoError>>)
    ensures forall i | 0 <= i < |ReaderItems(FileOutcomes(path, outcomes)).0| ::
      var it := ReaderItems(FileOutcomes(path, outcomes)).0[i];
      it.Err? ==> it.error.kind == OtherError || it.error == NotFoundError(path)
  {
    if outcomes != [] {
      FileErrorsOnly(path, outcomes[1..]);
      assert FileOutcomes(path, outcomes)[1..] == FileOutcomes(path, outcomes[1..]);
    }
  }

  /** `into_data_stream`: chunks pass through unchanged, errors are converted into storage errors. */
  function IntoDataStream<E>(items: seq<Result<Data, E>>, convert: E -> StorageError): (r: seq<StorageResult<Data>>)
    ensures |r| == |items|
    ensures forall i | 0 <= i < |r| ::
      r[i] == match items[i] case Ok(d) => Ok(d) case Err(e) => Err(convert(e))
  {
    if items == [] then []
    else [match items[0] case Ok(d) => Ok(d) case Err(e) => Err(convert(e))] + IntoDataStream(items[1..], convert)
  }

  /** The conversion keeps the data: the chunks of the converted stream are exactly the original chunks. */
  lemma {:induction false} IntoDataStreamKeepsData<E>(items: seq<Result<Data, E>>, convert: E -> StorageError)
    ensures Oks(IntoDataStream(items, convert)) == Oks(items)
    ensures |Errs(IntoDataStream(items, convert))| == |Errs(items)|
  {
    if items != [] {
      IntoDataStreamKeepsData(items[1..], convert);
      assert IntoDataStream(items, convert)[1..] == IntoDataStream(items[1..], convert);
    }
  }
}
