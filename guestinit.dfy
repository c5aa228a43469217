/** The parsing rules inside the guest's init script (`_INIT_TEMPLATE` in vm.py): turning
    `modules.devname` lines into device nodes, and finding the virtio port that carries the
    status channel. */
module GuestInit {
  import opened Wrappers

  /** The name QEMU gives the status port (`virtserialport,...,name=...`). */
  const VportName: string := "com.osandov.vmtest.0"

  // ---------------------------------------------------------------------------
  // `grep -v '^#' modules.devname | while read -r module name node; do ... done`

  predicate IsComment(line: string) {
    |line| > 0 && line[0] == '#'
  }

  /** `grep -v '^#'`: the lines that do not begin with `#`, in order. */
  function Uncommented(lines: seq<string>): (r: seq<string>)
    ensures |r| <= |lines|
    ensures forall i :: 0 <= i < |r| ==> !IsComment(r[i])
  {
    if lines == [] then []
    else (if IsComment(lines[0]) then [] else [lines[0]]) + Uncommented(lines[1..])
  }

  /** `grep -v` keeps every line that is not a comment and invents none. */
  lemma {:induction false} UncommentedIsFilter(lines: seq<string>)
    ensures forall l :: l in Uncommented(lines) ==> l in lines
    ensures forall l :: l in lines && !IsComment(l) ==> l in Uncommented(lines)
  {
    if lines != [] {
      UncommentedIsFilter(lines[1..]);
      assert lines == [lines[0]] + lines[1..];
    }
  }

  lemma {:induction false} UncommentedConcat(a: seq<string>, b: seq<string>)
    ensures Uncommented(a + b) == Uncommented(a) + Uncommented(b)
    decreases |a|
  {
    if a == [] {
      assert a + b == b;
    } else {
      assert (a + b)[1..] == a[1..] + b;
      UncommentedConcat(a[1..], b);
    }
  }

  /** The characters of the shell's default IFS. */
  predicate IsBlank(c: char) {
    c == ' ' || c == '\t' || c == '\n'
  }

  predicate NoBlanks(s: string) {
    forall i :: 0 <= i < |s| ==> !IsBlank(s[i])
  }

  function TrimLeft(s: string): (r: string)
    ensures |r| <= |s| && r == s[|s| - |r|..]
    ensures r == [] || !IsBlank(r[0])
  {
    if s != [] && IsBlank(s[0]) then TrimLeft(s[1..]) else s
  }

  function TrimRight(s: string): (r: string)
    ensures |r| <= |s| && r == s[..|r|]
    ensures r == [] || !IsBlank(r[|r| - 1])
  {
    if s != [] && IsBlank(s[|s| - 1]) then TrimRight(s[..|s| - 1]) else s
  }

  /** The length of the leading run of non-blank characters. */
  function WordLength(s: string): (n: nat)
    ensures n <= |s| && NoBlanks(s[..n])
    ensures n < |s| ==> IsBlank(s[n])
  {
    if s != [] && !IsBlank(s[0]) then 1 + WordLength(s[1..]) else 0
  }

  datatype DevnameLine = DevnameLine(driver: string, name: string, node: string)

  /** `read -r module name node`: leading blanks are skipped, the first two words go to
      `module` and `name`, and the rest of the line, without its surrounding blanks, to
      `node`. */
  function ReadFields(line: string): DevnameLine {
    var s0 := TrimLeft(line);
    var n1 := WordLength(s0);
    var s1 := TrimLeft(s0[n1..]);
    var n2 := WordLength(s1);
    DevnameLine(s0[..n1], s1[..n2], TrimRight(TrimLeft(s1[n2..])))
  }

  /** `${s%%:*}`: everything before the first colon (all of `s` when it has none). */
  function BeforeFirstColon(s: string): (r: string)
    ensures |r| <= |s| && r == s[..|r|]
    ensures ':' !in r
    ensures |r| < |s| ==> s[|r|] == ':'
  {
    if s == [] || s[0] == ':' then [] else [s[0]] + BeforeFirstColon(s[1..])
  }

  /** `${s##*:}`: everything after the last colon (all of `s` when it has none). */
  function AfterLastColon(s: string): (r: string)
    ensures |r| <= |s| && r == s[|s| - |r|..]
    ensures ':' !in r
    ensures |r| < |s| ==> s[|s| - |r| - 1] == ':'
  {
    if s == [] || s[|s| - 1] == ':' then [] else AfterLastColon(s[..|s| - 1]) + [s[|s| - 1]]
  }

  /** A node spec such as `c10:235`, split into its type letter and its numbers. */
  datatype NodeSpec = NodeSpec(kind: string, major: string, minor: string)

  /** `dev=${node#?}`, `major=${dev%%:*}`, `minor=${dev##*:}`, `type=${node%"${dev}"}`. */
  function SplitNode(node: string): NodeSpec {
    var dev := if node == [] then [] else node[1..];
    NodeSpec(node[..|node| - |dev|], BeforeFirstColon(dev), AfterLastColon(dev))
  }

  /** One `mknod "/dev/$name" "$type" "$major" "$minor"` call. */
  datatype Mknod = Mknod(path: string, kind: string, major: string, minor: string)

  function NodeFor(line: string): Mknod {
    var fields := ReadFields(line);
    var spec := SplitNode(fields.node);
    Mknod("/dev/" + fields.name, spec.kind, spec.major, spec.minor)
  }

  /** The device nodes the loop creates, one for each line that is not a comment. */
  function DeviceNodes(lines: seq<string>): seq<Mknod> {
    Apply(NodeFor, Uncommented(lines))
  }

  /** `f` applied to each element, in order. */
  function Apply<A, B>(f: A -> B, xs: seq<A>): (ys: seq<B>)
    ensures |ys| == |xs|
    ensures forall i :: 0 <= i < |xs| ==> ys[i] == f(xs[i])
  {
    if xs == [] then [] else [f(xs[0])] + Apply(f, xs[1..])
  }

  lemma {:induction false} ApplyConcat<A, B>(f: A -> B, xs: seq<A>, zs: seq<A>)
    ensures Apply(f, xs + zs) == Apply(f, xs) + Apply(f, zs)
    decreases |xs|
  {
    if xs == [] {
      assert xs + zs == zs;
    } else {
      assert (xs + zs)[0] == xs[0];
      assert (xs + zs)[1..] == xs[1..] + zs;
      ApplyConcat(f, xs[1..], zs);
    }
  }

  lemma ApplyMembership<A, B>(f: A -> B, xs: seq<A>, y: B)
    ensures y in Apply(f, xs) <==> exists x :: x in xs && y == f(x)
  {
    var ys := Apply(f, xs);
    if y in ys {
      var i :| 0 <= i < |ys| && ys[i] == y;
      assert xs[i] in xs;
    }
    if exists x :: x in xs && y == f(x) {
      var x :| x in xs && y == f(x);
      var i :| 0 <= i < |xs| && xs[i] == x;
      assert ys[i] == y;
    }
  }

  /** The split of a node spec: the type is the first character and the numbers are what
      stands on either side of the colon. */
  lemma SplitNodeSpec(kind: char, major: string, minor: string)
    requires ':' !in major && ':' !in minor
    ensures SplitNode([kind] + major + ":" + minor) == NodeSpec([kind], major, minor)
  {
    var node := [kind] + major + ":" + minor;
    var dev := major + ":" + minor;
    assert node[1..] == dev;
    SplitAtOnlyColon(major, minor);
  }

  lemma SplitAtOnlyColon(major: string, minor: string)
    requires ':' !in major && ':' !in minor
    ensures BeforeFirstColon(major + ":" + minor) == major
    ensures AfterLastColon(major + ":" + minor) == minor
  {
    BeforeOnlyColon(major, minor);
    AfterOnlyColon(major, minor);
  }

  lemma BeforeOnlyColon(major: string, minor: string)
    requires ':' !in major
    ensures BeforeFirstColon(major + ":" + minor) == major
  {
    var s := major + ":" + minor;
    var b := BeforeFirstColon(s);
    assert s[|major|] == ':';
    assert forall i :: 0 <= i < |major| ==> s[i] == major[i];
    assert |b| == |major|;
    assert s[..|major|] == major;
  }

  lemma {:induction false} AfterOnlyColon(major: string, minor: string)
    requires ':' !in minor
    ensures AfterLastColon(major + ":" + minor) == minor
    decreases |minor|
  {
    var s := major + ":" + minor;
    if minor == [] {
      assert s[|s| - 1] == ':';
    } else {
      var init := minor[..|minor| - 1];
      assert s[..|s| - 1] == major + ":" + init;
      assert s[|s| - 1] == minor[|minor| - 1];
      AfterOnlyColon(major, init);
      assert minor == init + [minor[|minor| - 1]];
    }
  }

  /** The example from the kernel's `modules.devname`. */
  lemma SplitNodeExample()
    ensures SplitNode("c10:235") == NodeSpec("c", "10", "235")
  {
    SplitNodeSpec('c', "10", "235");
    assert "c10:235" == ['c'] + "10" + ":" + "235";
  }

  /** A spec with two colons: the major number ends at the first colon and the minor
      starts after the last. */
  lemma SplitNodeTwoColons()
    ensures SplitNode("c1:2:3") == NodeSpec("c", "1", "3")
  {
    var dev := "1:2:3";
    assert "c1:2:3"[1..] == dev;
    assert BeforeFirstColon(dev) == "1" by {
      assert dev[1..] == ":2:3";
    }
    assert AfterLastColon(dev) == "3" by {
      assert dev[..|dev| - 1] == "1:2:";
    }
  }

  lemma ReadWord(word: string, rest: string)
    requires word != [] && NoBlanks(word)
    requires rest == [] || IsBlank(rest[0])
    ensures TrimLeft(word + rest) == word + rest
    ensures WordLength(word + rest) == |word|
  {
    assert (word + rest)[0] == word[0];
    WordLengthOf(word, rest);
  }

  lemma {:induction false} WordLengthOf(word: string, rest: string)
    requires NoBlanks(word)
    requires rest == [] || IsBlank(rest[0])
    ensures WordLength(word + rest) == |word|
  {
    if word == [] {
      assert word + rest == rest;
    } else {
      assert (word + rest)[0] == word[0];
      assert (word + rest)[1..] == word[1..] + rest;
      WordLengthOf(word[1..], rest);
    }
  }

  lemma TrimLeftBlank(c: char, s: string)
    requires IsBlank(c)
    ensures TrimLeft([c] + s) == TrimLeft(s)
  {
    assert ([c] + s)[1..] == s;
  }

  lemma TrimWord(s: string)
    requires s != [] && NoBlanks(s)
    ensures TrimLeft(s) == s && TrimRight(s) == s
  {
  }

  /** Reading the remainder ` name node` after the first field. */
  lemma ReadRest(name: string, node: string)
    requires name != [] && NoBlanks(name)
    requires node != [] && NoBlanks(node)
    ensures var s1 := TrimLeft([' '] + (name + ([' '] + node)));
      && s1 == name + ([' '] + node)
      && WordLength(s1) == |name|
      && s1[..|name|] == name
      && TrimRight(TrimLeft(s1[|name|..])) == node
  {
    var r2 := [' '] + node;
    var s1 := name + r2;
    TrimLeftBlank(' ', s1);
    ReadWord(name, r2);
    assert s1[|name|..] == r2;
    TrimLeftBlank(' ', node);
    TrimWord(node);
  }

  /** A well-formed `modules.devname` line is read back into its three fields. */
  lemma ReadFieldsOfLine(driver: string, name: string, node: string)
    requires driver != [] && NoBlanks(driver)
    requires name != [] && NoBlanks(name)
    requires node != [] && NoBlanks(node)
    ensures ReadFields(driver + ([' '] + (name + ([' '] + node)))) == DevnameLine(driver, name, node)
  {
    var r1 := [' '] + (name + ([' '] + node));
    var line := driver + r1;
    ReadWord(driver, r1);
    assert line[..|driver|] == driver && line[|driver|..] == r1;
    ReadRest(name, node);
  }

  /** One line of `modules.devname`: driver, device name and node spec, space separated. */
  function EntryLine(driver: string, name: string, node: string): string {
    driver + ([' '] + (name + ([' '] + node)))
  }

  /** The loop handles the lines one after another: the nodes of a concatenation are the
      nodes of its parts, in order. */
  lemma DeviceNodesConcat(a: seq<string>, b: seq<string>)
    ensures DeviceNodes(a + b) == DeviceNodes(a) + DeviceNodes(b)
  {
    UncommentedConcat(a, b);
    ApplyConcat(NodeFor, Uncommented(a), Uncommented(b));
  }

  /** One turn of the `while read` loop: a comment line adds nothing, any other line adds
      its node in front of the nodes of the lines after it. */
  lemma DeviceNodesStep(line: string, rest: seq<string>)
    ensures IsComment(line) ==> DeviceNodes([line] + rest) == DeviceNodes(rest)
    ensures !IsComment(line) ==> DeviceNodes([line] + rest) == [NodeFor(line)] + DeviceNodes(rest)
  {
    DeviceNodesConcat([line], rest);
    var one: seq<string> := [line];
    assert one[1..] == [];
    if IsComment(line) {
      assert Uncommented(one) == [];
      assert DeviceNodes(one) == [];
      assert DeviceNodes(one) + DeviceNodes(rest) == DeviceNodes(rest);
    } else {
      assert Uncommented(one) == one;
      assert Apply(NodeFor, one) == [NodeFor(line)];
    }
  }

  /** Comment lines make no device node, and every other line makes its node in place. */
  lemma DeviceNodesSkipComments(a: seq<string>, comment: string, b: seq<string>)
    requires IsComment(comment)
    ensures DeviceNodes(a + [comment] + b) == DeviceNodes(a) + DeviceNodes(b)
  {
    var t := [comment] + b;
    DeviceNodesStep(comment, b);
    DeviceNodesConcat(a, t);
    assert a + [comment] + b == a + t;
  }

  /** A node is created exactly when some line of the file that is not a comment asks
      for it. */
  lemma DeviceNodesFromLines(lines: seq<string>, n: Mknod)
    ensures n in DeviceNodes(lines) <==> exists l :: l in lines && !IsComment(l) && n == NodeFor(l)
  {
    UncommentedIsFilter(lines);
    ApplyMembership(NodeFor, Uncommented(lines), n);
  }

  /** The `mknod` call a well-formed entry line leads to. */
  lemma NodeForEntry(driver: string, name: string, kind: char, major: string, minor: string)
    requires driver != [] && NoBlanks(driver)
    requires name != [] && NoBlanks(name)
    requires NoBlanks([kind] + major + ":" + minor)
    requires ':' !in major && ':' !in minor
    ensures NodeFor(EntryLine(driver, name, [kind] + major + ":" + minor))
         == Mknod("/dev/" + name, [kind], major, minor)
  {
    var node := [kind] + major + ":" + minor;
    ReadFieldsOfLine(driver, name, node);
    SplitNodeSpec(kind, major, minor);
  }

  /** The device node a well-formed entry line produces. */
  lemma DeviceNodeOfEntry(driver: string, name: string, kind: char, major: string, minor: string)
    requires driver != [] && NoBlanks(driver) && driver[0] != '#'
    requires name != [] && NoBlanks(name)
    requires NoBlanks([kind] + major + ":" + minor)
    requires ':' !in major && ':' !in minor
    ensures DeviceNodes([EntryLine(driver, name, [kind] + major + ":" + minor)])
         == [Mknod("/dev/" + name, [kind], major, minor)]
  {
    var line := EntryLine(driver, name, [kind] + major + ":" + minor);
    assert line[0] == driver[0];
    var one: seq<string> := [line];
    assert one[1..] == [];
    assert Uncommented(one) == one;
    NodeForEntry(driver, name, kind, major, minor);
  }

  // ---------------------------------------------------------------------------
  // Finding the virtio port

  /** One directory under /sys/class/virtio-ports, in glob order: its entry name, whether
      its `name` file is readable, and that file's contents. */
  datatype PortEntry = PortEntry(entry: string, readable: bool, nameFile: string)

  /** `$(cat file)` drops trailing newlines. */
  function StripTrailingNewlines(s: string): (r: string)
    ensures |r| <= |s| && r == s[..|r|]
    ensures r == [] || r[|r| - 1] != '\n'
    ensures forall i :: |r| <= i < |s| ==> s[i] == '\n'
  {
    if s != [] && s[|s| - 1] == '\n' then StripTrailingNewlines(s[..|s| - 1]) else s
  }

  /** `[ -r "$vport_dir/name" -a "$(cat "$vport_dir/name")" = "$VPORT_NAME" ]`. */
  predicate IsStatusPort(p: PortEntry) {
    p.readable && StripTrailingNewlines(p.nameFile) == VportName
  }

  /** The loop with `break`: the first port whose name is the status port's, or None,
      after which the script reports `could not find virtio-port` and exits 1. */
  function FindVport(ports: seq<PortEntry>): (r: Option<string>)
    ensures r.None? <==> forall i :: 0 <= i < |ports| ==> !IsStatusPort(ports[i])
    ensures r.Some? ==> exists i :: (0 <= i < |ports| && IsStatusPort(ports[i])
      && r.value == ports[i].entry && forall j :: 0 <= j < i ==> !IsStatusPort(ports[j]))
  {
    if ports == [] then None
    else if IsStatusPort(ports[0]) then Some(ports[0].entry)
    else
      var r := FindVport(ports[1..]);
      assert r.Some? ==> exists i :: (0 <= i < |ports[1..]| && IsStatusPort(ports[1..][i])
        && r.value == ports[1..][i].entry && forall j :: 0 <= j < i ==> !IsStatusPort(ports[1..][j]));
      if r.Some? then
        var i :| 0 <= i < |ports[1..]| && IsStatusPort(ports[1..][i])
          && r.value == ports[1..][i].entry && forall j :: 0 <= j < i ==> !IsStatusPort(ports[1..][j]);
        assert forall j :: 0 <= j < i + 1 ==> !IsStatusPort(ports[j]) by {
          forall j | 0 <= j < i + 1 ensures !IsStatusPort(ports[j]) {
            if j > 0 { assert ports[j] == ports[1..][j - 1]; }
          }
        }
        r
      else r
  }

  /** The first matching port wins: ports after it are never looked at. */
  lemma {:induction false} FindVportFirstWins(a: seq<PortEntry>, b: seq<PortEntry>)
    ensures FindVport(a + b) == if FindVport(a).Some? then FindVport(a) else FindVport(b)
    decreases |a|
  {
    if a == [] {
      assert a + b == b;
    } else {
      assert (a + b)[0] == a[0];
      assert (a + b)[1..] == a[1..] + b;
      FindVportFirstWins(a[1..], b);
    }
  }

  /** A port whose name file holds the name and a newline is found. */
  lemma FindsNamedPort(entry: string)
    ensures FindVport([PortEntry(entry, true, VportName + "\n")]) == Some(entry)
  {
    var s := VportName + "\n";
    assert s[..|s| - 1] == VportName;
    assert VportName[|VportName| - 1] == '0';
    assert StripTrailingNewlines(s) == VportName;
  }
}
