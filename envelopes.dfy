/**
 * The result envelopes index.js sends on the 'commandResult' channel, and
 * which envelopes `runCommand` and `spawnCommand` send for a given process
 * outcome. What the process did is an input: one outcome for a command run to
 * completion, a sequence of events for a spawned one.
 */
module Envelopes {
  import opened Wrappers
  import opened Text
  import T = Transformers

  datatype Status = Ok | Error | Exited

  datatype Channel = Stdout | Stderr

  /** The three payload shapes: `{text}`, `{kernel}` and `{kernels}`. */
  datatype Payload =
    | Text(text: string)
    | Kernel(kernel: T.KernelRecord)
    | Kernels(kernels: seq<T.KernelRecord>)

  /**
   * One result message. Absent fields are the ones the source leaves out of
   * the JSON object; `intent` is the message's `type`.
   */
  datatype Envelope = Envelope(
    messageId: string,
    intent: string,
    status: Status,
    payload: Option<Payload>,
    errMsg: Option<string>,
    channel: Option<Channel>)

  /**
   * The shapes an envelope can take: an error carries a message and no
   * payload, an `ok` carries a payload and no message, an `exited` carries
   * neither; only data envelopes name a channel.
   */
  ghost predicate WellFormed(e: Envelope) {
    match e.status
    case Ok => e.payload.Some? && e.errMsg.None?
    case Error => e.payload.None? && e.errMsg.Some? && e.channel.None?
    case Exited => e.payload.None? && e.errMsg.None? && e.channel.None?
  }

  /** `if (!messageId || !cmd) return`: both must be non-empty for anything to happen. */
  predicate Accepted(messageId: string, cmd: string) {
    messageId != [] && cmd != []
  }

  // ---------------------------------------------------------------------------
  // runCommand

  /** The output transforms the intents pass to `runCommand`. */
  datatype Transform =
    | TrimmedText           // the default `(c) => ({ text: c.trim() })`
    | KernelFor(image: string)  // the getKernel transform, closing over the request's image
    | KernelListing         // the getKernels transform

  /** The payload a transform makes of the buffered standard output. */
  function Apply(t: Transform, stdout: string): (p: Payload)
    ensures t.TrimmedText? ==> p.Text? && (p.text == [] || (!IsSpace(p.text[0]) && !IsSpace(p.text[|p.text| - 1])))
    ensures t.KernelFor? ==> p.Kernel? && p.kernel.image == Some(t.image)
    ensures t.KernelListing? ==> p.Kernels?
    ensures t.TrimmedText? ==> p == Text(Trim(stdout))
    ensures t.KernelFor? ==> p == Kernel(T.KernelOf(stdout, t.image))
    ensures t.KernelListing? ==> p == Kernels(T.KernelsOf(stdout))
  {
    match t
    case TrimmedText => Text(Trim(stdout))
    case KernelFor(image) => Kernel(T.KernelOf(stdout, image))
    case KernelListing => Kernels(T.KernelsOf(stdout))
  }

  /** What `exec` reports to its callback: an error, or the buffered standard output. */
  datatype ExecOutcome = ExecFailed(message: string) | ExecDone(stdout: string)

  /** The arguments of `runCommand`, with the defaults of its parameter list applied. */
  datatype RunRequest = RunRequest(messageId: string, intent: string, cmd: string, transform: Transform, captureOutput: bool)

  /**
   * The envelopes `runCommand` sends for one outcome: none for a rejected
   * request or when output is not captured, otherwise exactly one, echoing
   * the request's id and type, an error or the transformed output.
   */
  function RunEnvelopes(req: RunRequest, outcome: ExecOutcome): (es: seq<Envelope>)
    ensures |es| <= 1
    ensures es == [] <==> !Accepted(req.messageId, req.cmd) || !req.captureOutput
    ensures forall e :: e in es ==> e.messageId == req.messageId && e.intent == req.intent
    ensures forall e :: e in es ==> WellFormed(e) && e.channel.None? && e.status != Exited
    ensures forall e :: e in es && outcome.ExecFailed? ==> e.status == Error && e.errMsg == Some(outcome.message)
    ensures forall e :: e in es && outcome.ExecDone? ==> e.status == Ok && e.payload == Some(Apply(req.transform, outcome.stdout))
  {
    if !Accepted(req.messageId, req.cmd) || !req.captureOutput then []
    else
      match outcome
      case ExecFailed(message) => [Envelope(req.messageId, req.intent, Error, None, Some(message), None)]
      case ExecDone(stdout) => [Envelope(req.messageId, req.intent, Ok, Some(Apply(req.transform, stdout)), None, None)]
  }

  // ---------------------------------------------------------------------------
  // spawnCommand

  /** What a spawned child reports: data on either stream, an `error`, or `close` with its exit code. */
  datatype ProcEvent =
    | StdoutData(chunk: string)
    | StderrData(chunk: string)
    | SpawnError(message: string)
    | Close(code: int)

  predicate IsTerminal(ev: ProcEvent) {
    ev.SpawnError? || ev.Close?
  }

  /** The `stdio` option of `spawn`: the default 'pipe', or 'ignore'. */
  datatype Stdio = Pipe | Ignore

  /** The arguments of `spawnCommand`, with the defaults of its parameter list applied. */
  datatype SpawnRequest = SpawnRequest(
    messageId: string,
    intent: string,
    cmd: string,
    params: seq<string>,
    detached: bool,
    stdio: Stdio,
    unref: bool)

  /** `stdio !== 'ignore'`: the data listeners exist only then. */
  predicate Piped(req: SpawnRequest) {
    req.stdio != Ignore
  }

  /** The envelope the listener for `ev` sends, if a listener is registered. */
  function EventEnvelopes(req: SpawnRequest, ev: ProcEvent): (es: seq<Envelope>)
    ensures |es| == (if !Piped(req) && !IsTerminal(ev) then 0 else 1)
    ensures forall e :: e in es ==> e.messageId == req.messageId && e.intent == req.intent && WellFormed(e)
    ensures ev.SpawnError? ==> es[0].status == Error && es[0].errMsg == Some(ev.message)
    ensures ev.Close? ==> es[0].status == Exited
    ensures Piped(req) && ev.StdoutData? ==>
      es[0].status == Ok && es[0].payload == Some(Text(ev.chunk)) && es[0].channel == Some(Stdout)
    ensures Piped(req) && ev.StderrData? ==>
      es[0].status == Ok && es[0].payload == Some(Text(ev.chunk)) && es[0].channel == Some(Stderr)
  {
    match ev
    case StdoutData(chunk) =>
      if Piped(req) then [Envelope(req.messageId, req.intent, Ok, Some(Text(chunk)), None, Some(Stdout))] else []
    case StderrData(chunk) =>
      if Piped(req) then [Envelope(req.messageId, req.intent, Ok, Some(Text(chunk)), None, Some(Stderr))] else []
    case SpawnError(message) => [Envelope(req.messageId, req.intent, Error, None, Some(message), None)]
    case Close(_) => [Envelope(req.messageId, req.intent, Exited, None, None, None)]
  }

  /**
   * The envelopes `spawnCommand` sends while the child reports `events`, in
   * the order the events arrive. A rejected request spawns nothing and so
   * sends nothing.
   */
  function StreamEnvelopes(req: SpawnRequest, events: seq<ProcEvent>): (es: seq<Envelope>)
    ensures !Accepted(req.messageId, req.cmd) ==> es == []
    ensures forall k :: 0 <= k < |es| ==> es[k].messageId == req.messageId && es[k].intent == req.intent
    ensures forall k :: 0 <= k < |es| ==> WellFormed(es[k])
    ensures |es| <= |events|
    decreases |events|
  {
    if !Accepted(req.messageId, req.cmd) || events == [] then []
    else StreamEnvelopes(req, events[..|events| - 1]) + EventEnvelopes(req, events[|events| - 1])
  }

  lemma StreamStep(req: SpawnRequest, events: seq<ProcEvent>, ev: ProcEvent)
    requires Accepted(req.messageId, req.cmd)
    ensures StreamEnvelopes(req, events + [ev]) == StreamEnvelopes(req, events) + EventEnvelopes(req, ev)
  {
    assert (events + [ev])[..|events|] == events;
  }

  /** The events that end the child, `error` or `close`, in the order they arrive. */
  function Terminals(events: seq<ProcEvent>): (ts: seq<ProcEvent>)
    ensures |ts| <= |events|
    ensures forall k :: 0 <= k < |ts| ==> IsTerminal(ts[k]) && ts[k] in events
    decreases |events|
  {
    if events == [] then []
    else
      var last := events[|events| - 1];
      Terminals(events[..|events| - 1]) + (if IsTerminal(last) then [last] else [])
  }

  /**
   * With `stdio: 'ignore'` no data envelope is ever sent, whatever the child
   * writes: the k-th envelope answers the k-th `error` or `close`, an error
   * envelope with its message or an `exited` one, and nothing else is sent.
   */
  lemma {:induction false} IgnoredStreamSendsOnlyTerminals(req: SpawnRequest, events: seq<ProcEvent>)
    requires Accepted(req.messageId, req.cmd) && !Piped(req)
    ensures var es := StreamEnvelopes(req, events);
      var ts := Terminals(events);
      && |es| == |ts|
      && (forall k :: 0 <= k < |es| ==> es[k].status != Ok)
      && (forall k :: 0 <= k < |es| && ts[k].SpawnError? ==>
            es[k].status == Error && es[k].errMsg == Some(ts[k].message))
      && (forall k :: 0 <= k < |es| && ts[k].Close? ==> es[k].status == Exited)
    decreases |events|
  {
    if events != [] {
      var init := events[..|events| - 1];
      IgnoredStreamSendsOnlyTerminals(req, init);
      assert forall k :: 0 <= k < |Terminals(init)| ==> Terminals(events)[k] == Terminals(init)[k];
    }
  }

  /**
   * With piped stdio every event sends exactly one envelope, in order: a
   * chunk gives an `ok` envelope with the chunk as text on its channel,
   * `error` an error envelope with the message, `close` an `exited` one.
   */
  lemma {:induction false} PipedStreamSendsOnePerEvent(req: SpawnRequest, events: seq<ProcEvent>)
    requires Accepted(req.messageId, req.cmd) && Piped(req)
    ensures var es := StreamEnvelopes(req, events);
      && |es| == |events|
      && (forall k :: 0 <= k < |es| && events[k].StdoutData? ==>
            es[k].status == Ok && es[k].payload == Some(Text(events[k].chunk)) && es[k].channel == Some(Stdout))
      && (forall k :: 0 <= k < |es| && events[k].StderrData? ==>
            es[k].status == Ok && es[k].payload == Some(Text(events[k].chunk)) && es[k].channel == Some(Stderr))
      && (forall k :: 0 <= k < |es| && events[k].SpawnError? ==>
            es[k].status == Error && es[k].errMsg == Some(events[k].message))
      && (forall k :: 0 <= k < |es| && events[k].Close? ==> es[k].status == Exited)
    decreases |events|
  {
    if events != [] {
      var init := events[..|events| - 1];
      PipedStreamSendsOnePerEvent(req, init);
      assert forall k :: 0 <= k < |init| ==> events[k] == init[k];
    }
  }

  /**
   * A child that reports data and then one terminal event yields data
   * envelopes followed by exactly one terminal envelope, which is last and is
   * either `error` or `exited`.
   */
  lemma TerminalEnvelopeIsLast(req: SpawnRequest, data: seq<ProcEvent>, last: ProcEvent)
    requires Accepted(req.messageId, req.cmd)
    requires forall k :: 0 <= k < |data| ==> !IsTerminal(data[k])
    requires IsTerminal(last)
    ensures var es := StreamEnvelopes(req, data + [last]);
      && es != []
      && (forall k :: 0 <= k < |es| - 1 ==> es[k].status == Ok)
      && es[|es| - 1].status == (if last.Close? then Exited else Error)
  {
    StreamStep(req, data, last);
    if Piped(req) {
      PipedStreamSendsOnePerEvent(req, data);
    } else {
      IgnoredStreamSendsOnlyTerminals(req, data);
      assert Terminals(data) == [] by { NoTerminals(data); }
    }
  }

  lemma {:induction false} NoTerminals(events: seq<ProcEvent>)
    requires forall k :: 0 <= k < |events| ==> !IsTerminal(events[k])
    ensures Terminals(events) == []
    decreases |events|
  {
    if events != [] {
      NoTerminals(events[..|events| - 1]);
    }
  }
}
