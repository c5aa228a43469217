/** `run_in_vm` as a whole, over abstract host inputs: probe QEMU's version, prepare the
    shim and the environment, wait for QEMU to connect, read the status channel and decode
    it; and the exit status the command line derives from the outcome. */
module Supervisor {
  import opened Wrappers
  import opened Version
  import opened Capabilities
  import opened Shim
  import opened StatusChannel
  import GuestInit

  /** The ways a run ends without a status: the two exceptions `run_in_vm` lets escape, and
      `LostVMError`. */
  datatype VmError =
    | QemuVersionUnknown        // "could not determine QEMU version"
    | BuildFailed(status: int)  // `subprocess.check_call` on the compiler raised
    | LostVM(reason: LostReason)

  /** What the host supplies: the output of `qemu-system-x86_64 -version`, `os.environ`, the
      build directory, the shim's source path, `util.out_of_date`, the compiler's exit status
      when it is run, `shlex.split`, and whether `/dev/kvm` is readable and writable. */
  datatype Host = Host(
    qemuOutput: string,
    environ: Environ,
    buildDir: string,
    shimSource: string,
    outOfDate: (string, string) -> bool,
    ccStatus: int,
    split: string -> seq<string>,
    kvm: bool)

  const KvmArgs: seq<string> := ["-cpu", "host", "-enable-kvm"]
  const KdumpNoSmp: string := "export KDUMP_NEEDS_NOSMP=1"

  /** Everything decided before QEMU is started. */
  datatype Plan = Plan(caps: Capabilities, shim: Option<string>, kvmArgs: seq<string>, kdump: string)

  /** `_build_onoatimehack`: the artifact, unless the compiler is run and fails. */
  function BuildShim(h: Host): (r: Result<string, VmError>)
    ensures r.Success? ==> r.value == ShimArtifact(h.buildDir)
    ensures r.Failure? <==> h.outOfDate(ShimArtifact(h.buildDir), h.shimSource) && h.ccStatus != 0
    ensures r.Failure? ==> r.error == BuildFailed(h.ccStatus)
  {
    var b := PlanShim(h.buildDir, h.shimSource, h.outOfDate, h.environ, h.split);
    if b.compile.Some? && h.ccStatus != 0 then Failure(BuildFailed(h.ccStatus))
    else Success(b.artifact)
  }

  /** The steps of `run_in_vm` before QEMU is spawned. */
  function Prepare(h: Host): (r: Result<Plan, VmError>)
    ensures r == Failure(QemuVersionUnknown) <==> Probe(h.qemuOutput).None?
    ensures r.Failure? && r.error != QemuVersionUnknown ==>
      && Probe(h.qemuOutput).Some? && Probe(h.qemuOutput).value.needsShim
      && BuildShim(h) == Failure(r.error)
    ensures Probe(h.qemuOutput).Some? && Probe(h.qemuOutput).value.needsShim && BuildShim(h).Failure?
      ==> r == Failure(BuildShim(h).error)
    ensures r.Success? ==>
      && Probe(h.qemuOutput) == Some(r.value.caps)
      && (r.value.shim.Some? <==> r.value.caps.needsShim)
      && (r.value.shim.Some? ==> r.value.shim.value == ShimArtifact(h.buildDir))
      && (r.value.kvmArgs == KvmArgs <==> h.kvm)
      && (r.value.kvmArgs == [] <==> !h.kvm)
      && (r.value.kdump == "" <==> h.kvm)
      && (r.value.kdump == KdumpNoSmp <==> !h.kvm)
  {
    match Probe(h.qemuOutput)
    case None => Failure(QemuVersionUnknown)
    case Some(caps) =>
      var shim :- if caps.needsShim then
                    match BuildShim(h)
                    case Failure(e) => Failure(e)
                    case Success(so) => Success(Some(so))
                  else Success(None);
      var kvmArgs := if h.kvm then KvmArgs else [];
      Success(Plan(caps, shim, kvmArgs, if kvmArgs != [] then "" else KdumpNoSmp))
  }

  /** How the decoded status ends the run. */
  function Outcome(d: Result<nat, LostReason>): Result<nat, VmError> {
    match d
    case Success(n) => Success(n)
    case Failure(reason) => Failure(LostVM(reason))
  }

  /** The result of `run_in_vm`: `connected` says whether QEMU connected within the accept
      timeout, and `incoming` is what successive `recv` calls on the connection return. */
  function RunSpec(h: Host, connected: bool, incoming: seq<RecvResult>): Result<nat, VmError> {
    match Prepare(h)
    case Failure(e) => Failure(e)
    case Success(_) =>
      if !connected then Failure(LostVM(ConnectTimeout))
      else Outcome(DecodeStatus(Collected(incoming)))
  }

  /** The environment QEMU is started with, and the plan it was started from. */
  datatype Launch = Launch(plan: Plan, env: Environ)

  /** `run_in_vm`, step by step: when preparation succeeds QEMU is launched with the
      prepared environment; when it connects, the status is read from the connection, which
      is closed afterwards; when it does not, the connection is never touched. */
  method RunInVm(h: Host, connected: bool, sock: Connection)
    returns (result: Result<nat, VmError>, launch: Option<Launch>)
    requires sock.Valid() && !sock.closed
    modifies sock
    ensures result == RunSpec(h, connected, old(sock.incoming))
    ensures launch.Some? <==> Prepare(h).Success?
    ensures launch.Some? ==> launch.value.plan == Prepare(h).value
    ensures launch.Some? ==> Preloaded(launch.value.env, h.environ, launch.value.plan.shim)
    ensures sock.closed <==> Prepare(h).Success? && connected
    ensures !sock.closed ==> sock.incoming == old(sock.incoming)
  {
    var prepared := Prepare(h);
    if prepared.Failure? {
      return Failure(prepared.error), None;
    }
    var plan := prepared.value;
    var env := PreloadEnvironment(h.environ, plan.shim);
    launch := Some(Launch(plan, env));
    if !connected {
      return Failure(LostVM(ConnectTimeout)), launch;
    }
    var status := ReceiveStatus(sock);
    result := Outcome(DecodeStatus(status));
  }

  // ---------------------------------------------------------------------------
  // Properties of a run

  /** Without a recognisable version banner the run fails before anything else happens,
      and this is the only way it fails with that error. */
  lemma VersionFailureIsFatal(h: Host, connected: bool, incoming: seq<RecvResult>)
    ensures RunSpec(h, connected, incoming) == Failure(QemuVersionUnknown)
        <==> forall i: nat :: !MatchAt(h.qemuOutput, i)
  {
    match Prepare(h)
    case Failure(e) =>
    case Success(_) =>
      if connected {
        var d := DecodeStatus(Collected(incoming));
        assert Outcome(d).Failure? ==> Outcome(d).error.LostVM?;
      }
  }

  /** If QEMU does not connect in time the run is lost, whatever the guest would have sent:
      status decoding is never reached. */
  lemma TimeoutIsLost(h: Host, incoming: seq<RecvResult>)
    requires Prepare(h).Success?
    ensures RunSpec(h, false, incoming) == Failure(LostVM(ConnectTimeout))
  {
  }

  /** A compiler failure while building a needed, stale shim ends the run with that
      compiler status. */
  lemma BuildFailureIsFatal(h: Host, v: Version, connected: bool, incoming: seq<RecvResult>)
    requires ParseVersion(h.qemuOutput) == Some(v) && NeedsShim(v)
    requires h.outOfDate(ShimArtifact(h.buildDir), h.shimSource) && h.ccStatus != 0
    ensures RunSpec(h, connected, incoming) == Failure(BuildFailed(h.ccStatus))
  {
    ParseVersionIsLeftmostMatch(h.qemuOutput);
  }

  /** When the version does not need the shim, the build directory, the shim's source, the
      staleness test, the compiler and `shlex.split` have no influence on the run. */
  lemma ShimInputsIrrelevant(h: Host, h2: Host, connected: bool, incoming: seq<RecvResult>)
    requires h2.qemuOutput == h.qemuOutput && h2.environ == h.environ && h2.kvm == h.kvm
    requires Probe(h.qemuOutput).Some? && !NeedsShim(Probe(h.qemuOutput).value.version)
    ensures RunSpec(h2, connected, incoming) == RunSpec(h, connected, incoming)
    ensures Prepare(h2) == Prepare(h)
  {
  }

  /** Any delivery of the guest's message, in chunks of any size, followed by the peer
      closing or resetting the connection, makes the run return the guest's status. */
  lemma StatusRoundTrip(h: Host, rc: nat, chunks: seq<seq<Byte>>, after: seq<RecvResult>)
    requires Prepare(h).Success?
    requires forall i :: 0 <= i < |chunks| ==> chunks[i] != []
    requires Join(chunks) == Encode(rc)
    requires after == [] || EndsStream(after[0])
    ensures RunSpec(h, true, Deliver(chunks) + after) == Success(rc)
  {
    CollectedReassembles(chunks, after);
    DecodeEncode(rc);
  }

  /** A successful run returns the value of a well-formed message: the guest's message,
      possibly with leading zeros. */
  lemma SuccessMeansMessage(h: Host, connected: bool, incoming: seq<RecvResult>, n: nat)
    requires RunSpec(h, connected, incoming) == Success(n)
    ensures connected
    ensures exists k: nat :: Collected(incoming) == ZeroBytes(k) + Encode(n)
  {
    DecodeAcceptsOnlyMessages(Collected(incoming));
  }

  // ---------------------------------------------------------------------------
  // The guest's side of the channel

  /** What the guest writes to the status port: `echo "$rc"` when the port is found, and
      nothing when it is not, because the script then exits and powers the VM off. */
  function GuestReport(ports: seq<GuestInit.PortEntry>, rc: nat): (m: seq<Byte>)
    ensures GuestInit.FindVport(ports).None? ==> m == []
    ensures GuestInit.FindVport(ports).Some? ==> DecodeStatus(m) == Success(rc)
  {
    if GuestInit.FindVport(ports).None? then []
    else DecodeEncode(rc); Encode(rc)
  }

  /** End to end: the run returns the command's status when the guest finds its port, and is
      lost with "did not return status" when it does not. */
  lemma GuestToHost(h: Host, ports: seq<GuestInit.PortEntry>, rc: nat,
                    chunks: seq<seq<Byte>>, after: seq<RecvResult>)
    requires Prepare(h).Success?
    requires forall i :: 0 <= i < |chunks| ==> chunks[i] != []
    requires Join(chunks) == GuestReport(ports, rc)
    requires after == [] || EndsStream(after[0])
    ensures GuestInit.FindVport(ports).Some? ==> RunSpec(h, true, Deliver(chunks) + after) == Success(rc)
    ensures GuestInit.FindVport(ports).None? ==> RunSpec(h, true, Deliver(chunks) + after) == Failure(LostVM(NoStatus))
  {
    CollectedReassembles(chunks, after);
  }

  // ---------------------------------------------------------------------------
  // The command line

  /** `sys.exit(run_in_vm(...))`, `sys.exit(args.lost_status)` on `LostVMError`, and the
      status 1 of an uncaught exception; the operating system keeps the low eight bits. */
  function ExitStatus(r: Result<nat, VmError>, lostStatus: int): (e: int)
    ensures 0 <= e < 256
  {
    match r
    case Success(n) => n % 256
    case Failure(LostVM(_)) => lostStatus % 256
    case Failure(_) => 1
  }

  /** The default `--lost-status`. */
  const DefaultLostStatus: int := 128

  /** A shell status (0 to 255) reported by the guest becomes the exit status of the
      command line; a lost VM exits with the lost status, which by default cannot be
      mistaken for a status of 127 or below. */
  lemma ExitStatusOfRun(h: Host, ports: seq<GuestInit.PortEntry>, rc: nat,
                        chunks: seq<seq<Byte>>, after: seq<RecvResult>)
    requires rc < 256
    requires Prepare(h).Success?
    requires forall i :: 0 <= i < |chunks| ==> chunks[i] != []
    requires Join(chunks) == GuestReport(ports, rc)
    requires after == [] || EndsStream(after[0])
    ensures GuestInit.FindVport(ports).Some? ==>
      ExitStatus(RunSpec(h, true, Deliver(chunks) + after), DefaultLostStatus) == rc
    ensures GuestInit.FindVport(ports).None? ==>
      ExitStatus(RunSpec(h, true, Deliver(chunks) + after), DefaultLostStatus) == DefaultLostStatus
  {
    GuestToHost(h, ports, rc, chunks, after);
    ExitStatusOfReport(RunSpec(h, true, Deliver(chunks) + after), GuestInit.FindVport(ports).Some?, rc);
  }

  lemma ExitStatusOfReport(r: Result<nat, VmError>, found: bool, rc: nat)
    requires rc < 256
    requires found ==> r == Success(rc)
    requires !found ==> r == Failure(LostVM(NoStatus))
    ensures found ==> ExitStatus(r, DefaultLostStatus) == rc
    ensures !found ==> ExitStatus(r, DefaultLostStatus) == DefaultLostStatus
  {
  }
}
