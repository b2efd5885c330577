/**
 * The privileged side of index.js as an object: the outbound 'commandResult'
 * channel is an append-only log of envelopes, and every `exec` / `spawn` the
 * handlers start is recorded in a second log. What the processes then report
 * is given to each method as its outcome or its sequence of events.
 */
module Shell {
  import opened Wrappers
  import opened Envelopes
  import opened Intents
  import Transformers

  /** An external process the subsystem starts. */
  datatype Launch =
    | Exec(cmd: string, withCallback: bool)
    | Spawn(cmd: string, params: seq<string>, detached: bool, stdio: Stdio, unref: bool)

  /** `exec(cmd, cb)` runs only for an accepted request; `cb` is null when output is not captured. */
  function RunLaunches(req: RunRequest): (ls: seq<Launch>)
    ensures |ls| == (if Accepted(req.messageId, req.cmd) then 1 else 0)
    ensures ls != [] ==> ls[0] == Exec(req.cmd, req.captureOutput)
  {
    if Accepted(req.messageId, req.cmd) then [Exec(req.cmd, req.captureOutput)] else []
  }

  /** `spawn(cmd, params, { detached, stdio })`, then `unref()` when asked, for an accepted request. */
  function SpawnLaunches(req: SpawnRequest): (ls: seq<Launch>)
    ensures |ls| == (if Accepted(req.messageId, req.cmd) then 1 else 0)
    ensures ls != [] ==> ls[0] == Spawn(req.cmd, req.params, req.detached, req.stdio, req.unref)
  {
    if Accepted(req.messageId, req.cmd) then [Spawn(req.cmd, req.params, req.detached, req.stdio, req.unref)] else []
  }

  /**
   * Calls the transform on the buffered output; the listing transform is the
   * accumulating loop of `CollectKernels`.
   */
  method RunTransform(t: Transform, stdout: string) returns (p: Payload)
    ensures p == Apply(t, stdout)
  {
    match t
    case TrimmedText =>
      p := Text(Text.Trim(stdout));
    case KernelFor(image) =>
      p := Kernel(Transformers.KernelOf(stdout, image));
    case KernelListing =>
      var kernels := Transformers.CollectKernels(stdout);
      p := Kernels(kernels);
  }

  class CommandShell {
    /** The resolved path of the docker binary, used for every intent. */
    const dockerPath: string
    /** Every envelope sent on 'commandResult', oldest first. */
    var outbox: seq<Envelope>
    /** Every process started, oldest first. */
    var processes: seq<Launch>

    /**
     * Every envelope ever sent has one of the well-formed shapes and carries
     * a non-empty request id: requests without one are never answered.
     */
    ghost predicate Valid()
      reads this
    {
      forall k :: 0 <= k < |outbox| ==> WellFormed(outbox[k]) && outbox[k].messageId != []
    }

    constructor (dockerPath: string)
      ensures Valid()
      ensures this.dockerPath == dockerPath && outbox == [] && processes == []
    {
      this.dockerPath := dockerPath;
      outbox := [];
      processes := [];
    }

    /** `mainWindow.webContents.send('commandResult', JSON.stringify(e))`. */
    method Send(e: Envelope)
      requires Valid() && WellFormed(e) && e.messageId != []
      modifies this`outbox
      ensures Valid()
      ensures outbox == old(outbox) + [e]
    {
      outbox := outbox + [e];
    }

    /**
     * The `exec` callback of `runCommand`: start from an `ok` result and
     * either turn it into an error or attach the transformed output.
     */
    method OnExecResult(req: RunRequest, outcome: ExecOutcome)
      requires Valid() && Accepted(req.messageId, req.cmd) && req.captureOutput
      modifies this`outbox
      ensures Valid()
      ensures outbox == old(outbox) + RunEnvelopes(req, outcome)
    {
      var result := Envelope(req.messageId, req.intent, Ok, None, None, None);
      match outcome {
        case ExecFailed(message) =>
          result := result.(status := Error, errMsg := Some(message));
        case ExecDone(stdout) =>
          var payload := RunTransform(req.transform, stdout);
          result := result.(payload := Some(payload));
      }
      Send(result);
    }

    /** `runCommand`: run to completion and answer once, unless rejected or not captured. */
    method RunCommand(req: RunRequest, outcome: ExecOutcome)
      requires Valid()
      modifies this`outbox, this`processes
      ensures Valid()
      ensures processes == old(processes) + RunLaunches(req)
      ensures outbox == old(outbox) + RunEnvelopes(req, outcome)
    {
      if !Accepted(req.messageId, req.cmd) {
        return;
      }
      processes := processes + [Exec(req.cmd, req.captureOutput)];
      if req.captureOutput {
        OnExecResult(req, outcome);
      }
    }

    /** The listeners `spawnCommand` registers, reacting to one event of the child. */
    method OnEvent(req: SpawnRequest, ev: ProcEvent)
      requires Valid() && Accepted(req.messageId, req.cmd)
      modifies this`outbox
      ensures Valid()
      ensures outbox == old(outbox) + EventEnvelopes(req, ev)
    {
      match ev
      case SpawnError(message) =>
        Send(Envelope(req.messageId, req.intent, Error, None, Some(message), None));
      case Close(_) =>
        Send(Envelope(req.messageId, req.intent, Exited, None, None, None));
      case StdoutData(chunk) =>
        if Piped(req) {
          Send(Envelope(req.messageId, req.intent, Ok, Some(Text(chunk)), None, Some(Stdout)));
        }
      case StderrData(chunk) =>
        if Piped(req) {
          Send(Envelope(req.messageId, req.intent, Ok, Some(Text(chunk)), None, Some(Stderr)));
        }
    }

    /** `spawnCommand`: start the child, then answer each event it reports, in order. */
    method SpawnCommand(req: SpawnRequest, events: seq<ProcEvent>)
      requires Valid()
      modifies this`outbox, this`processes
      ensures Valid()
      ensures processes == old(processes) + SpawnLaunches(req)
      ensures outbox == old(outbox) + StreamEnvelopes(req, events)
    {
      if !Accepted(req.messageId, req.cmd) {
        return;
      }
      processes := processes + [Spawn(req.cmd, req.params, req.detached, req.stdio, req.unref)];
      var i := 0;
      while i < |events|
        invariant 0 <= i <= |events|
        invariant Valid()
        invariant processes == old(processes) + SpawnLaunches(req)
        invariant outbox == old(outbox) + StreamEnvelopes(req, events[..i])
      {
        OnEvent(req, events[i]);
        StreamStep(req, events[..i], events[i]);
        assert events[..i + 1] == events[..i] + [events[i]];
        i := i + 1;
      }
      assert events[..i] == events;
    }

    // -------------------------------------------------------------------------
    // the intent handlers

    method StartKernel(msg: StartKernelMsg, events: seq<ProcEvent>)
      requires Valid()
      modifies this`outbox, this`processes
      ensures Valid()
      ensures processes == old(processes) + SpawnLaunches(StartKernelRequest(dockerPath, msg))
      ensures outbox == old(outbox) + StreamEnvelopes(StartKernelRequest(dockerPath, msg), events)
    {
      SpawnCommand(StartKernelRequest(dockerPath, msg), events);
    }

    method GetKernel(msg: GetKernelMsg, outcome: ExecOutcome)
      requires Valid()
      modifies this`outbox, this`processes
      ensures Valid()
      ensures processes == old(processes) + RunLaunches(GetKernelRequest(dockerPath, msg))
      ensures outbox == old(outbox) + RunEnvelopes(GetKernelRequest(dockerPath, msg), outcome)
    {
      RunCommand(GetKernelRequest(dockerPath, msg), outcome);
    }

    method GetKernels(msg: GetKernelsMsg, outcome: ExecOutcome)
      requires Valid()
      modifies this`outbox, this`processes
      ensures Valid()
      ensures processes == old(processes) + RunLaunches(GetKernelsRequest(dockerPath, msg))
      ensures outbox == old(outbox) + RunEnvelopes(GetKernelsRequest(dockerPath, msg), outcome)
    {
      RunCommand(GetKernelsRequest(dockerPath, msg), outcome);
    }

    /** Returns before building any command when the message has no kernel id. */
    method StopKernel(msg: StopKernelMsg, outcome: ExecOutcome)
      requires Valid()
      modifies this`outbox, this`processes
      ensures Valid()
      ensures Transformers.Falsy(msg.kernelId) ==> processes == old(processes) && outbox == old(outbox)
      ensures !Transformers.Falsy(msg.kernelId) ==>
        var req := StopKernelRequest(dockerPath, msg).value;
        processes == old(processes) + RunLaunches(req) && outbox == old(outbox) + RunEnvelopes(req, outcome)
    {
      var req := StopKernelRequest(dockerPath, msg);
      if req.None? {
        return;
      }
      RunCommand(req.value, outcome);
    }

    /** The 'runCommand' channel: the parsed message goes to `runCommand` unchanged. */
    method RawCommand(msg: RunCommandMsg, outcome: ExecOutcome)
      requires Valid()
      modifies this`outbox, this`processes
      ensures Valid()
      ensures processes == old(processes) + RunLaunches(RawRequest(msg))
      ensures outbox == old(outbox) + RunEnvelopes(RawRequest(msg), outcome)
    {
      RunCommand(RawRequest(msg), outcome);
    }
  }
}
