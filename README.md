# vmtest `run_in_vm`: version probe, shim, status channel and guest-init rules

This project models the decisions inside `vmtest/vm.py`, the script that runs a
command inside a QEMU virtual machine and returns the command's exit status. The
QEMU processes, sockets and subprocesses are replaced by their observable outcomes.
Around them the model keeps that logic, over unbounded integers (the interpreter limits
on very large numbers are listed under "Left out"):

- **Version** (`version.dfy`): Python's `<` on integer tuples, and the greedy
  `QEMU emulator version N(.N)*` search that turns `qemu-system-x86_64 -version`
  output into a tuple.
- **Capabilities** (`capabilities.dfy`): the `,multidevs=remap` suffix for
  versions at or above (4, 2). The O_NOATIME shim for versions below (5, 0, 1).
- **Shim** (`shim.dfy`): the compiler argv `_compile` builds in automake's order,
  the build-if-stale decision of `_build_onoatimehack`, and the `LD_PRELOAD`
  update of the copied environment. That update is a method on a map.
- **StatusChannel** (`status.dfy`): QEMU's connection is a `Connection` object
  whose `recv` results are a script. `ReceiveStatus` is the receive loop, with its
  invariant; it closes the socket. `DecodeStatus` is the validation of the status
  buffer: no status, invalid status, or the decimal value.
- **GuestInit** (`guestinit.dfy`): two rules of the guest's init script. The first
  is the `modules.devname` loop: comment filter, `read -r` field splitting, and
  `${node#?}` / `${dev%%:*}` / `${dev##*:}` node-spec splitting. The second is the
  search for the virtio port named `com.osandov.vmtest.0`.
- **Supervisor** (`supervisor.dfy`): `run_in_vm` end to end, in two forms. A
  function `RunSpec` gives the whole run over the host's inputs. A method `RunInVm`
  performs the steps on a `Connection` and is proved equal to it. The module also
  maps the result to the command line's exit status.
- **Decimal** (`decimal.dfy`): shared by the version text and the status bytes.
  It gives the meaning of `str(n)`, `isdigit()` and `int(...)` on ASCII digit
  strings.

Inputs the program gets from its environment are parameters of the model:

- the version text and `os.environ`;
- the accept outcome and the `recv` results;
- the compiler's exit status and whether `/dev/kvm` is usable;
- `shlex.split` and `util.out_of_date`, as functions.

## Model

| member | source | states |
|---|---|---|
| `Version.Less` | vmtest/vm.py:187-191 | Python's `<` on integer tuples, written recursively; its meaning is stated by `LessIsLexicographic` and the order lemmas below. |
| `Version.LessIsLexicographic` | vmtest/vm.py:187-191 | The recursive tuple comparison is the lexicographic order: a strictly smaller component at the first difference, or a proper prefix. |
| `Version.LessIrreflexive` | vmtest/vm.py:187-191 | No version is below itself. |
| `Version.LessTransitive` | vmtest/vm.py:187-191 | The tuple order is transitive. |
| `Version.LessTotal` | vmtest/vm.py:187-191 | Any two distinct versions are ordered one way or the other. |
| `Version.DigitRun` | vmtest/vm.py:177 | `[0-9]+` is greedy: the run covers only digits and stops before a non-digit or at the end. |
| `Version.MatchAt` | vmtest/vm.py:176-177 | The pattern matches at a position: the banner text followed by a digit; stated by `SearchFromIsLeftmostMatch` and `ParseVersionIsLeftmostMatch`. |
| `Version.Dotted` | vmtest/vm.py:177-184 | The dotted integers read at a match give a non-empty tuple. |
| `Version.SearchFrom` | vmtest/vm.py:176-184 | The search for the banner from a position on; the match found and its leftmost position are stated by `SearchFromIsLeftmostMatch`. |
| `Version.SearchFromIsLeftmostMatch` | vmtest/vm.py:176-184 | Started where no earlier position matches, the search fails exactly when nothing matches and otherwise reads the version at the leftmost match. |
| `Version.ParseVersion` | vmtest/vm.py:176-184 | `re.search` of the banner and the `int` of each dotted component; stated by `ParseVersionIsLeftmostMatch` and `ParseRenderedVersion`. |
| `Version.ParseVersionIsLeftmostMatch` | vmtest/vm.py:176-184 | The search fails exactly when the banner followed by a digit occurs nowhere in the output; otherwise it reads the version at the leftmost occurrence. |
| `Version.NatTextValue` | vmtest/vm.py:184 | `int` of the decimal text of n is n. |
| `Version.ParseRenderedVersion` | vmtest/vm.py:176-184 | Round trip: for every version and every trailer starting with neither a digit nor a dot, the banner followed by the dotted version parses back to that tuple. |
| `Version.DottedLast` | vmtest/vm.py:177-184 | A digit run followed by neither a digit nor a dot and a digit is the last component, read with its leading zeros as `int` reads it. |
| `Version.DottedTwoComponents` | vmtest/vm.py:177-184 | Two digit runs joined by a dot, followed by anything but a digit or a dot and a digit, read as the values of the two runs. This holds with leading zeros and with a trailing dot. |
| `Capabilities.SupportsRemap` | vmtest/vm.py:186-187 | `qemu_version >= (4, 2)`; closed form in `RemapFlagClosedForm`. |
| `Capabilities.NeedsShim` | vmtest/vm.py:188-191 | `qemu_version < (5, 0, 1)`; closed form in `ShimFlagClosedForm`. |
| `Capabilities.Multidevs` | vmtest/vm.py:186-187 | The suffix is either `,multidevs=remap` or empty. |
| `Capabilities.Probe` | vmtest/vm.py:176-191 | No version means failure exactly when nothing matches. Otherwise the version is the parsed one, and multidevs is the option iff version >= (4, 2) and empty iff not. The shim is needed iff version < (5, 0, 1). |
| `Capabilities.RemapFlagClosedForm` | vmtest/vm.py:186-187 | Version >= (4, 2) iff the major is above 4, or it is 4 with a second component of at least 2. |
| `Capabilities.ShimFlagClosedForm` | vmtest/vm.py:188-191 | Version < (5, 0, 1) iff the major is below 5, or it is 5 and each of the next two components, where present, is 0. |
| `Capabilities.BoundaryVersions` | vmtest/vm.py:186-191 | Boundary cases. (4, 2) and (4, 2, 0) get multidevs; (4, 1, 9) does not. (5, 0) and (5, 0, 0) need the shim; (5, 0, 1) and (5, 1) do not. (5, 9) < (5, 10). |
| `Capabilities.FlagsMonotone` | vmtest/vm.py:186-191 | A newer version never loses multidevs and never needs the shim when an older one did not. |
| `Shim.Getenv` | vmtest/vm.py:138-147 | `os.getenv(key, default)`: the environment's value, or the default when the key is absent. |
| `Shim.CompileArgv` | vmtest/vm.py:137-148 | The command starts with `CC`, or `cc` when it is unset. |
| `Shim.CompileArgvReadsOnlyCompilerVariables` | vmtest/vm.py:137-148 | The command depends on the environment only through CC, CPPFLAGS, CFLAGS, LDFLAGS and LIBS. |
| `Shim.LastMatching` | vmtest/vm.py:134-136 | The option a later-wins compiler reads satisfies the predicate and stands at a position after which no argument matches; there is none only when no argument does. |
| `Shim.LastMatchingConcat` | vmtest/vm.py:134-136 | In a concatenation, a matching option in the later part wins over the earlier part. |
| `Shim.LaterSettingWins` | vmtest/vm.py:134-136 | An option set in the middle of a command line and by nothing after it is the one read. |
| `Shim.EnvironmentFlagsOverride` | vmtest/vm.py:134-148 | For each of CPPFLAGS, CFLAGS and LDFLAGS: an option the environment variable sets, and nothing later on the command line sets again, overrides the explicit argument of that group, the default and every earlier group. |
| `Shim.PlanShim` | vmtest/vm.py:153-168 | The artifact is `<dir>/onoatimehack.so` in both cases. A compile command is planned iff the artifact is out of date with its source. |
| `Shim.ShimArtifact` | vmtest/vm.py:156 | `dir / "onoatimehack.so"`; stated by `PlanShim`, which fixes it as the artifact in both cases. |
| `Shim.ShimCompileCommand` | vmtest/vm.py:156-167 | With no compiler variables set, the stale shim is built with `cc -D_GNU_SOURCE -fPIC -g -O2 -shared -o <so> <source> -ldl`. |
| `Shim.PreloadEnvironment` | vmtest/vm.py:190-193 | Copying the environment and updating it in place. With the shim, LD_PRELOAD is `<shim>:<old LD_PRELOAD or "">` and every other entry is the original. Without it, the environment is unchanged. |
| `Shim.Preloaded` | vmtest/vm.py:190-193 | The relation between the caller's environment, the shim and the environment QEMU gets; stated by `PreloadEnvironment` and `PreloadedIsUnique`. |
| `Shim.PreloadedIsUnique` | vmtest/vm.py:190-193 | `Preloaded` fixes the environment completely: two environments related to the same caller environment and shim are equal. |
| `Shim.ShimPreloadedFirst` | vmtest/vm.py:193 | The shim path and `:` come first in LD_PRELOAD, followed by the caller's unchanged list. |
| `StatusChannel.Collected` | vmtest/vm.py:264-272 | The bytes the receive loop accumulates from the `recv` results; stated by `CollectedIsDataBeforeStop`, `ResetIsLikeEof`, `CollectedReassembles` and tied to the loop by `ReceiveStatus`. |
| `StatusChannel.StopIndex` | vmtest/vm.py:265-271 | The index of the first empty read or reset: nothing before it ends the stream. |
| `StatusChannel.EndsStream` | vmtest/vm.py:266-271 | An empty read or a connection reset ends the loop; stated by `StopIndex`, `ResetIsLikeEof` and `CollectedIsDataBeforeStop`. |
| `StatusChannel.CollectedIsDataBeforeStop` | vmtest/vm.py:264-272 | The buffer the loop builds is the concatenation, in order, of the data received before the first empty read or reset. |
| `StatusChannel.ResetIsLikeEof` | vmtest/vm.py:266-271 | A connection reset ends the loop exactly as an empty read does, whatever follows it. |
| `StatusChannel.CollectedReassembles` | vmtest/vm.py:264-272 | Any split of a message into non-empty chunks, followed by the end of the stream, is reassembled into the message. |
| `StatusChannel.Connection.Recv` | vmtest/vm.py:267-269 | One `recv(4)`. It yields the next result, or an empty read once the peer has closed, and never more than four bytes. |
| `StatusChannel.Connection.Close` | vmtest/vm.py:273-274 | Closing marks the connection closed and leaves its pending data alone. |
| `StatusChannel.ReceiveStatus` | vmtest/vm.py:263-274 | The loop's buffer is the collected data of the connection's results, and the socket is closed when it returns. |
| `StatusChannel.Encode` | vmtest/vm.py:122-123 | The guest's message is a non-empty digit string followed by a newline. |
| `StatusChannel.DecodeStatus` | vmtest/vm.py:275-279 | "did not return status" iff the buffer is empty. Any other failure is "invalid status" carrying the buffer. Success iff the last byte is a newline and the non-empty prefix is all ASCII digits. |
| `StatusChannel.DecodeEncode` | vmtest/vm.py:277-279 | For every n, decoding `str(n) + "\n"` gives n. |
| `StatusChannel.DecodeIgnoresLeadingZeros` | vmtest/vm.py:277-279 | Leading zeros in front of a message do not change the decoded value. |
| `StatusChannel.DecodeAcceptsOnlyMessages` | vmtest/vm.py:277-279 | Every accepted buffer is zeros followed by the message of its value. |
| `StatusChannel.DecodeCanonical` | vmtest/vm.py:277-279 | An accepted buffer with no redundant leading zero is exactly the message of its value. |
| `StatusChannel.MalformedPayloads` | vmtest/vm.py:275-278 | `""` means no status. `"12"`, `"abc\n"`, `"1\n2\n"` and `"\n"` are invalid status. |
| `StatusChannel.WellFormedPayloads` | vmtest/vm.py:277-279 | `"007\n"` decodes to 7 and `"255\n"` to 255. |
| `Decimal.Digits` | vmtest/vm.py:123 | The decimal text of n is a non-empty digit string without a redundant leading zero. |
| `Decimal.IsDigitString` | vmtest/vm.py:277 | `isdigit()` on ASCII bytes: a non-empty string of digits; stated by `DigitStringShape` and `CanonicalDigits`. |
| `Decimal.Value` | vmtest/vm.py:279 | `int(...)` of a digit string, also used for version components at line 184; stated by `ValueOfDigits`, `ValueIgnoresLeadingZeros` and `DigitStringShape`. |
| `Decimal.ValueOfDigits` | vmtest/vm.py:279 | `int(str(n)) == n`. |
| `Decimal.ValueIgnoresLeadingZeros` | vmtest/vm.py:279 | `int` ignores leading zeros. |
| `Decimal.CanonicalDigits` | vmtest/vm.py:277-279 | A digit string without a redundant leading zero is `str` of its value. |
| `Decimal.DigitStringShape` | vmtest/vm.py:277-279 | Every digit string is zeros followed by `str` of its value. |
| `GuestInit.IsComment` | vmtest/vm.py:78 | A line matching `^#`. |
| `GuestInit.Uncommented` | vmtest/vm.py:78 | `grep -v '^#'` keeps no comment line and adds no line. |
| `GuestInit.UncommentedIsFilter` | vmtest/vm.py:78 | Every kept line is an input line, and every input line that is not a comment is kept. |
| `GuestInit.UncommentedConcat` | vmtest/vm.py:78 | The filter works line by line: it distributes over concatenation. |
| `GuestInit.ReadFields` | vmtest/vm.py:79 | `read -r module name node` under the default IFS; stated by `ReadFieldsOfLine`. |
| `GuestInit.ReadFieldsOfLine` | vmtest/vm.py:79 | `read -r module name node` recovers the three blank-free fields of a space-separated line. |
| `GuestInit.BeforeFirstColon` | vmtest/vm.py:82 | `${dev%%:*}` is the colon-free prefix up to the first colon. |
| `GuestInit.AfterLastColon` | vmtest/vm.py:83 | `${dev##*:}` is the colon-free suffix after the last colon. |
| `GuestInit.SplitNode` | vmtest/vm.py:81-84 | `${node#?}`, `${dev%%:*}`, `${dev##*:}` and `${node%"$dev"}`; stated by `SplitNodeSpec` and the examples. |
| `GuestInit.SplitAtOnlyColon` | vmtest/vm.py:82-83 | Around a single colon, the prefix is the major number and the suffix the minor. |
| `GuestInit.SplitNodeSpec` | vmtest/vm.py:81-84 | A node spec `<t><major>:<minor>` splits into type `t`, major and minor. |
| `GuestInit.SplitNodeExample` | vmtest/vm.py:81-84 | `c10:235` splits into `c`, `10`, `235`. |
| `GuestInit.SplitNodeTwoColons` | vmtest/vm.py:81-84 | `c1:2:3` splits into `c`, `1`, `3`. |
| `GuestInit.NodeFor` | vmtest/vm.py:79-86 | The `mknod` call for one line; stated by `NodeForEntry`. |
| `GuestInit.DeviceNodes` | vmtest/vm.py:78-87 | The `mknod` calls of the devname loop, in order; stated by `DeviceNodesStep`, `DeviceNodesFromLines` and `DeviceNodesConcat`. |
| `GuestInit.DeviceNodesStep` | vmtest/vm.py:78-87 | One turn of the loop: a comment line adds no node, any other line adds its node before the nodes of the following lines. |
| `GuestInit.DeviceNodesFromLines` | vmtest/vm.py:78-87 | A node is created iff some non-comment line of the file yields it. |
| `GuestInit.DeviceNodesConcat` | vmtest/vm.py:78-87 | The nodes of concatenated files are the nodes of each part, in order. |
| `GuestInit.DeviceNodesSkipComments` | vmtest/vm.py:78-87 | A comment line creates no node and leaves the nodes around it in place. |
| `GuestInit.NodeForEntry` | vmtest/vm.py:79-86 | A well-formed entry makes `mknod /dev/<name> <t> <major> <minor>`. |
| `GuestInit.DeviceNodeOfEntry` | vmtest/vm.py:78-87 | A file holding one well-formed entry creates exactly that entry's node. |
| `GuestInit.IsStatusPort` | vmtest/vm.py:106 | `[ -r name -a "$(cat name)" = "$VPORT_NAME" ]`. |
| `GuestInit.StripTrailingNewlines` | vmtest/vm.py:106 | `$(cat ...)` removes exactly the trailing newlines. |
| `GuestInit.FindVport` | vmtest/vm.py:104-114 | No port is found iff no readable port has the name. Otherwise the result is the first such port's entry, with no match before it. |
| `GuestInit.FindVportFirstWins` | vmtest/vm.py:105-110 | The loop stops at the first match: ports after it are never consulted. |
| `GuestInit.FindsNamedPort` | vmtest/vm.py:106-107 | A readable port whose name file holds the name and a newline is found. |
| `Supervisor.BuildShim` | vmtest/vm.py:150-168 | The shim build yields the artifact path. It fails, with the compiler's status, iff the artifact is stale and the compiler fails. |
| `Supervisor.Prepare` | vmtest/vm.py:175-202 | The version error occurs iff the probe fails. Any other failure is the shim build's, and a needed shim whose build fails always fails the run with that error. On success the plan holds the probed flags and the shim iff it is needed. It holds the KVM arguments iff `/dev/kvm` is usable, and the kdump line iff it is not. |
| `Supervisor.RunSpec` | vmtest/vm.py:175-279 | The whole run over the host's inputs; stated by `RunInVm` and the lemmas below. |
| `Supervisor.Outcome` | vmtest/vm.py:275-279 | The decoded status, or a lost-VM error carrying the reason; stated by `StatusRoundTrip`, `SuccessMeansMessage` and `GuestToHost`. |
| `Supervisor.RunInVm` | vmtest/vm.py:175-279 | The run agrees with `RunSpec`, and QEMU's environment is the LD_PRELOAD update of the plan's shim. The connection is closed iff QEMU was started and connected; otherwise it is untouched. |
| `Supervisor.VersionFailureIsFatal` | vmtest/vm.py:182-183 | The run fails with "could not determine QEMU version" iff the banner matches nowhere. |
| `Supervisor.TimeoutIsLost` | vmtest/vm.py:256-262 | Without a connection, a prepared run is lost with the connect-timeout reason, whatever the guest would have sent. |
| `Supervisor.BuildFailureIsFatal` | vmtest/vm.py:150-192 | A needed, stale shim whose compiler fails ends the run with the compiler's status. |
| `Supervisor.ShimInputsIrrelevant` | vmtest/vm.py:191-193 | When no shim is needed, the build directory, shim source, staleness test, compiler and `shlex.split` do not affect the run. |
| `Supervisor.StatusRoundTrip` | vmtest/vm.py:263-279 | Any chunking of the guest's message, then the end of the stream, makes the run return the guest's status. |
| `Supervisor.SuccessMeansMessage` | vmtest/vm.py:256-279 | A successful run was connected, and it read zeros followed by the message of its result. |
| `Supervisor.GuestReport` | vmtest/vm.py:111-123 | The guest sends nothing when it finds no port. Otherwise it sends a message that decodes to the command's status. |
| `Supervisor.GuestToHost` | vmtest/vm.py:104-123 | End to end: the run returns the command's status when the guest finds its port, and is lost with "did not return status" when it does not. |
| `Supervisor.ExitStatus` | vmtest/vm.py:331-336 | The command line's exit status is in 0..255. |
| `Supervisor.ExitStatusOfRun` | vmtest/vm.py:331-336 | For a run that connected and read what the guest sent: a guest status below 256 becomes the exit status, and a guest that found no port makes it exit with the default lost status 128. Timeouts, invalid statuses and other errors are not covered by a lemma. |

## Left out

- Spawning QEMU: its argv (vm.py:223-253), `nproc()`, and the wait for QEMU to
  exit. The spawn is represented only by the environment and plan it receives.
- `_INIT_TEMPLATE`'s text and its `format` fill-in, apart from the kdump line
  choice.
- The guest script's effects: mounts, `pivot_root`, `modprobe`, `mkdir`, the
  `mknod` calls themselves, and running the command. Only the devname rules and
  the port search are modelled.
- `re.search`: replaced by a direct model of the pattern.
- `shlex.split` and `shlex.quote`: an opaque function parameter, and left out
  respectively.
- `util.out_of_date`: an opaque function parameter.
- `print` of the compile command.
- Path handling: `Path` joins are `dir + "/" + name`, with no normalisation.
  `resolve` is left out, and the shim source path is an input. So is
  `Path.relative_to(Path.cwd())` (vm.py:157): it raises `ValueError` when vm.py
  is not under the working directory, which fails the shim build, while
  `BuildShim` and `Prepare` never fail at that step.
- `dir.mkdir` failures, `tempfile` and socket setup errors, and exceptions from
  `recv` other than `ConnectionResetError`: these are OS faults outside the model.
- The `/dev/kvm` access probe: `os.access` becomes a boolean input. The warning
  printed when it is false is left out.
- The wording of the `LostVMError` messages and the `repr(...)[11:-1]` formatting
  of an invalid buffer: `LostReason` carries the reason and the raw buffer instead.
- A guest that never closes the connection. The script of `recv` results is
  finite, and running out of it means the peer closed, so the unbounded wait is
  not represented.
- The 5-second accept timeout as a duration: accept is "connected or not".
- The `__main__` block: argparse, kernel lookup and `download_kernels`, and the
  default command `sh -i`. Only the mapping of the result to the exit status is
  modelled.
- CompileArgv: its own contract states only the compiler in front. The order of
  the groups is exactly the body; what it achieves is stated by
  `EnvironmentFlagsOverride` for the three flag groups, and the concrete shim
  command by `ShimCompileCommand`. That CC comes first is the contract itself; the
  positions of the positional arguments, LIBADD and LIBS have no lemma of their own.
- Dotted: its own contract states only that the tuple is non-empty. The values
  are pinned down by `ParseRenderedVersion` only for rendered text: components
  without leading zeros, followed by a trailer that starts with neither a digit
  nor a dot. `ParseVersionIsLeftmostMatch` ties the result to `Dotted` at the
  match. Leading zeros and a trailing dot are covered only for two components, by
  `DottedTwoComponents`, and for the last component, by `DottedLast`.
- ExitStatus: its own contract states only the range 0..255. The mapping is
  stated for runs that reached the guest by `ExitStatusOfRun`.
- ExitStatusOfRun: the exit status of a non-`LostVMError` exception is taken as
  Python's 1 for an uncaught exception; no lemma states it.
- `int(...)` on bytes also accepts surrounding whitespace. Validation admits only
  digits followed by one newline, so that makes no difference.
- DecodeStatus, DecodeEncode: numbers are unbounded. CPython 3.11 and later (and the
  3.7.14, 3.8.14, 3.9.14 and 3.10.7 security releases) refuse `int()` of text with
  more than 4300 digits and raise `ValueError`. The model instead decodes such a
  buffer to its value, so it does not promise that error. It is an interpreter
  limit; the guest only ever sends a shell status of 0 to 255.
- Dotted, ParseVersion: the same 4300-digit limit applies to a version component;
  the model reads any length.
- ExitStatus: `sys.exit(n)` with n above 2^63 - 1 exits with 255 on CPython, while the
  model takes `n % 256`; only statuses 0 to 255 reach it from the guest.
- FindVport, GuestReport: an entry whose name is empty would be found by the model,
  while the script's `[ -z "$vport" ]` would treat it as missing. The glob over
  `/sys/class/virtio-ports/*` never yields an empty name, so entries are taken as
  named.
