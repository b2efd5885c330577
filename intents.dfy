/**
 * The intent router of index.js (the `eventHandler` entries): how each
 * renderer message becomes the arguments of `runCommand` or `spawnCommand`,
 * with the defaults the handlers' destructuring applies. A field the message
 * omits is `None`; JavaScript defaults replace only `undefined`, so an empty
 * string the renderer sends is kept.
 */
module Intents {
  import opened Wrappers
  import opened Text
  import opened Envelopes
  import Transformers

  const DefaultImage: string := "asia.gcr.io/hasbrain-notes/base-notebook"
  /**
   * A port the renderer can send as a JSON number that arrives exact and that
   * `${port}` prints as plain digits: a non-negative safe integer, below 2^53
   * and so far below 10^21, where JavaScript switches to exponent notation.
   */
  type SafePort = n: nat | n < 0x20_0000_0000_0000

  const DefaultPort: SafePort := 9999
  const DefaultStatusFilter: string := "running"

  datatype StartKernelMsg = StartKernelMsg(messageId: string, image: Option<string>, port: Option<SafePort>)
  datatype GetKernelMsg = GetKernelMsg(messageId: string, image: Option<string>)
  datatype GetKernelsMsg = GetKernelsMsg(messageId: string, status: Option<string>)
  datatype StopKernelMsg = StopKernelMsg(messageId: string, kernelId: Option<string>)
  /** A raw 'runCommand' message, handed to `runCommand` as it is. */
  datatype RunCommandMsg = RunCommandMsg(messageId: string, intent: string, cmd: string, captureOutput: Option<bool>)

  /**
   * 'startKernel': `docker run -p <port>:8888 <image>` as an argument vector,
   * spawned detached and unreferenced; stdio is left at its default 'pipe'.
   */
  function StartKernelRequest(dockerPath: string, msg: StartKernelMsg): (r: SpawnRequest)
    ensures r.messageId == msg.messageId && r.intent == "startKernel" && r.cmd == dockerPath
    ensures r.detached && r.unref && r.stdio == Pipe && Piped(r)
    ensures |r.params| == 4 && r.params[0] == "run" && r.params[1] == "-p"
    ensures r.params[3] == (if msg.image.Some? then msg.image.value else DefaultImage)
    ensures msg.port.None? ==> r.params[2] == "9999:8888"
  {
    var port := msg.port.GetOr(DefaultPort);
    var image := msg.image.GetOr(DefaultImage);
    assert Dec(9999) == "9999";
    SpawnRequest(msg.messageId, "startKernel", dockerPath, ["run", "-p", Dec(port) + ":8888", image], true, Pipe, true)
  }

  /**
   * The host port a started kernel publishes is the one `formatPort` reads
   * back from the ports column `docker ps` prints for it (a host address
   * without ':' followed by `:<port>-><container side>`), and it spells the
   * requested number.
   */
  lemma StartedPortIsReadBack(dockerPath: string, msg: StartKernelMsg, host: string, rest: string)
    requires ':' !in host
    ensures var mapping := StartKernelRequest(dockerPath, msg).params[2];
      && |mapping| > 5 && mapping[|mapping| - 5..] == ":8888"
      && var hostPort := mapping[..|mapping| - 5];
      && AllDigits(hostPort)
      && DecValue(hostPort) == msg.port.GetOr(DefaultPort)
      && Transformers.FormatPort(Some(host + ":" + hostPort + "->" + rest)) == Some(hostPort)
  {
    var p := msg.port.GetOr(DefaultPort);
    var mapping := StartKernelRequest(dockerPath, msg).params[2];
    assert mapping == Dec(p) + ":8888";
    assert mapping[..|mapping| - 5] == Dec(p);
    DecValueOfDec(p);
    Transformers.FormatPortReadsPublishedPort(host, Dec(p), rest);
  }

  /** 'getKernel': the newest container of the image, parsed into one record. */
  function GetKernelRequest(dockerPath: string, msg: GetKernelMsg): (r: RunRequest)
    ensures r.messageId == msg.messageId && r.intent == "getKernel" && r.captureOutput
    ensures r.transform == KernelFor(if msg.image.Some? then msg.image.value else DefaultImage)
    ensures r.cmd == dockerPath + " ps -a -f \"ancestor=" + r.transform.image + "\" -n 1 --format '{{.ID}}|{{.Status}}|{{.Ports}}'"
  {
    var image := msg.image.GetOr(DefaultImage);
    RunRequest(msg.messageId, "getKernel",
      dockerPath + " ps -a -f \"ancestor=" + image + "\" -n 1 --format '{{.ID}}|{{.Status}}|{{.Ports}}'",
      KernelFor(image), true)
  }

  /**
   * A 'getKernel' answer echoes the request's id and the image it asked for
   * (or the default image), whatever the command printed.
   */
  lemma GetKernelEchoesRequest(dockerPath: string, msg: GetKernelMsg, stdout: string)
    requires msg.messageId != []
    ensures var es := RunEnvelopes(GetKernelRequest(dockerPath, msg), ExecDone(stdout));
      && |es| == 1 && es[0].messageId == msg.messageId && es[0].intent == "getKernel"
      && es[0].status == Ok && es[0].payload.Some? && es[0].payload.value.Kernel?
      && es[0].payload.value.kernel == Transformers.KernelOf(stdout, msg.image.GetOr(DefaultImage))
      && es[0].payload.value.kernel.image == Some(msg.image.GetOr(DefaultImage))
  {
    var es := RunEnvelopes(GetKernelRequest(dockerPath, msg), ExecDone(stdout));
    assert es[0] in es;
  }

  /** 'getKernels': every container with the status filter, parsed into a list. */
  function GetKernelsRequest(dockerPath: string, msg: GetKernelsMsg): (r: RunRequest)
    ensures r.messageId == msg.messageId && r.intent == "getKernels" && r.captureOutput
    ensures r.transform == KernelListing
    ensures r.cmd == dockerPath + " ps -a -f \"status=" + (if msg.status.Some? then msg.status.value else "running")
      + "\" --format '{{.ID}}|{{.Status}}|{{.Image}}|{{.Ports}}'"
  {
    var status := msg.status.GetOr(DefaultStatusFilter);
    RunRequest(msg.messageId, "getKernels",
      dockerPath + " ps -a -f \"status=" + status + "\" --format '{{.ID}}|{{.Status}}|{{.Image}}|{{.Ports}}'",
      KernelListing, true)
  }

  /** 'stopKernel': `docker stop <kernelId>`; no command at all without a kernel id. */
  function StopKernelRequest(dockerPath: string, msg: StopKernelMsg): (r: Option<RunRequest>)
    ensures r.None? <==> Transformers.Falsy(msg.kernelId)
    ensures r.Some? ==> r.value.messageId == msg.messageId && r.value.intent == "stopKernel"
    ensures r.Some? ==> r.value.cmd == dockerPath + " stop " + msg.kernelId.value
    ensures r.Some? ==> r.value.transform == TrimmedText && r.value.captureOutput
  {
    if Transformers.Falsy(msg.kernelId) then None
    else Some(RunRequest(msg.messageId, "stopKernel", dockerPath + " stop " + msg.kernelId.value, TrimmedText, true))
  }

  /** A raw 'runCommand' message: the default trimming transform, output captured unless it says otherwise. */
  function RawRequest(msg: RunCommandMsg): (r: RunRequest)
    ensures r.messageId == msg.messageId && r.intent == msg.intent && r.cmd == msg.cmd
    ensures r.transform == TrimmedText
    ensures r.captureOutput <==> (msg.captureOutput.None? || msg.captureOutput.value)
  {
    RunRequest(msg.messageId, msg.intent, msg.cmd, TrimmedText, msg.captureOutput.GetOr(true))
  }
}
