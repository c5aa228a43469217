/** The host side of the status channel (vm.py, `run_in_vm`): accepting QEMU's connection,
    reading until the peer closes, and decoding the one-shot status message, an ASCII
    decimal number followed by a newline. */
module StatusChannel {
  import opened Wrappers
  import Decimal

  type Byte = b: int | 0 <= b < 256

  const Newline: Byte := 10
  /** `sock.recv(4)` never returns more than this many bytes. */
  const RecvSize: nat := 4

  /** The outcome of one `recv` call: some bytes (none at end of stream), or a reset. */
  datatype RecvResult = Received(data: seq<Byte>) | ConnectionReset

  /** Why the VM counts as lost (`LostVMError`). */
  datatype LostReason =
    | ConnectTimeout                 // "QEMU did not connect within 5.0 seconds"
    | NoStatus                       // "VM did not return status"
    | InvalidStatus(raw: seq<Byte>)  // "VM returned invalid status: ..."

  /** A reset is handled exactly like an empty read: the stream has ended. */
  predicate EndsStream(r: RecvResult) {
    r.ConnectionReset? || r.data == []
  }

  // ---------------------------------------------------------------------------
  // What the receive loop collects

  /** The bytes the loop accumulates from successive `recv` results: everything up to the
      first read that ends the stream. Running out of results means the peer has closed. */
  function Collected(rs: seq<RecvResult>): seq<Byte> {
    if rs == [] || EndsStream(rs[0]) then [] else rs[0].data + Collected(rs[1..])
  }

  /** The index of the first result that ends the stream, or |rs| when there is none. */
  function StopIndex(rs: seq<RecvResult>): (k: nat)
    ensures k <= |rs|
    ensures forall j :: 0 <= j < k ==> !EndsStream(rs[j])
    ensures k < |rs| ==> EndsStream(rs[k])
  {
    if rs == [] || EndsStream(rs[0]) then 0 else 1 + StopIndex(rs[1..])
  }

  /** The concatenation, in order, of the data of the results. */
  function Flatten(rs: seq<RecvResult>): seq<Byte> {
    if rs == [] then [] else (if rs[0].Received? then rs[0].data else []) + Flatten(rs[1..])
  }

  /** The loop's buffer is the concatenation, in order, of every chunk received before the
      first empty read or reset; nothing after that point is read. */
  lemma {:induction false} CollectedIsDataBeforeStop(rs: seq<RecvResult>)
    ensures Collected(rs) == Flatten(rs[..StopIndex(rs)])
  {
    if rs == [] || EndsStream(rs[0]) {
    } else {
      CollectedIsDataBeforeStop(rs[1..]);
      assert rs[..StopIndex(rs)] == [rs[0]] + rs[1..][..StopIndex(rs[1..])];
    }
  }

  /** A connection reset ends the stream exactly as a clean close does, whatever would have
      come after it. */
  lemma {:induction false} ResetIsLikeEof(pre: seq<RecvResult>, after1: seq<RecvResult>, after2: seq<RecvResult>)
    ensures Collected(pre + [ConnectionReset] + after1) == Collected(pre + [Received([])] + after2)
    ensures Collected(pre + [ConnectionReset] + after1) == Collected(pre)
    decreases |pre|
  {
    if pre == [] {
      assert (pre + [ConnectionReset] + after1)[0] == ConnectionReset;
      assert (pre + [Received([])] + after2)[0] == Received([]);
    } else {
      assert (pre + [ConnectionReset] + after1)[1..] == pre[1..] + [ConnectionReset] + after1;
      assert (pre + [Received([])] + after2)[1..] == pre[1..] + [Received([])] + after2;
      ResetIsLikeEof(pre[1..], after1, after2);
    }
  }

  /** Whatever non-empty chunks a message is delivered in, the loop reassembles it. */
  lemma {:induction false} CollectedReassembles(chunks: seq<seq<Byte>>, after: seq<RecvResult>)
    requires forall i :: 0 <= i < |chunks| ==> chunks[i] != []
    requires after == [] || EndsStream(after[0])
    ensures Collected(Deliver(chunks) + after) == Join(chunks)
    decreases |chunks|
  {
    if chunks != [] {
      assert (Deliver(chunks) + after)[1..] == Deliver(chunks[1..]) + after;
      CollectedReassembles(chunks[1..], after);
    }
  }

  /** The `recv` results that deliver the given chunks, in order. */
  function Deliver(chunks: seq<seq<Byte>>): (rs: seq<RecvResult>)
    ensures |rs| == |chunks|
    ensures forall i :: 0 <= i < |chunks| ==> rs[i] == Received(chunks[i])
  {
    if chunks == [] then [] else [Received(chunks[0])] + Deliver(chunks[1..])
  }

  /** The concatenation of the chunks. */
  function Join(chunks: seq<seq<Byte>>): seq<Byte> {
    if chunks == [] then [] else chunks[0] + Join(chunks[1..])
  }

  // ---------------------------------------------------------------------------
  // The accepted connection and the receive loop

  /** The connection `server_sock.accept()` returns. */
  class Connection {
    /** What successive `recv` calls will return; once it is used up the peer has closed,
        and every further `recv` returns no data. */
    var incoming: seq<RecvResult>
    var closed: bool

    ghost predicate Valid()
      reads this
    {
      forall i :: 0 <= i < |incoming| && incoming[i].Received? ==> |incoming[i].data| <= RecvSize
    }

    constructor (script: seq<RecvResult>)
      requires forall i :: 0 <= i < |script| && script[i].Received? ==> |script[i].data| <= RecvSize
      ensures Valid() && incoming == script && !closed
    {
      incoming := script;
      closed := false;
    }

    /** `sock.recv(4)`, with a reset reported as a result instead of an exception. */
    method Recv() returns (r: RecvResult)
      requires Valid() && !closed
      modifies this
      ensures Valid() && !closed
      ensures old(incoming) == [] ==> r == Received([]) && incoming == []
      ensures old(incoming) != [] ==> r == old(incoming)[0] && incoming == old(incoming)[1..]
      ensures r.Received? ==> |r.data| <= RecvSize
    {
      if incoming == [] {
        r := Received([]);
      } else {
        r := incoming[0];
        incoming := incoming[1..];
      }
    }

    /** `sock.close()`. */
    method Close()
      modifies this
      ensures closed && incoming == old(incoming)
    {
      closed := true;
    }
  }

  /** The receive loop: grow the status buffer chunk by chunk until an empty read or a
      reset, then close the connection. */
  method ReceiveStatus(sock: Connection) returns (status: seq<Byte>)
    requires sock.Valid() && !sock.closed
    modifies sock
    ensures sock.closed
    ensures status == Collected(old(sock.incoming))
  {
    status := [];
    while true
      invariant sock.Valid() && !sock.closed
      invariant Collected(old(sock.incoming)) == status + Collected(sock.incoming)
      decreases |sock.incoming|
    {
      ghost var before := sock.incoming;
      var r := sock.Recv();
      var buf := if r.ConnectionReset? then [] else r.data;
      if buf == [] {
        break;
      }
      status := status + buf;
    }
    sock.Close();
  }

  // ---------------------------------------------------------------------------
  // The status message

  /** What the guest writes with `echo "$rc"`: the decimal digits of `rc` and a newline. */
  function Encode(n: nat): (m: seq<Byte>)
    ensures |m| >= 2 && m[|m| - 1] == Newline
    ensures Decimal.IsDigitString(m[..|m| - 1])
  {
    var digits := Decimal.Digits(n);
    var m: seq<Byte> := digits + [Newline];
    assert m[..|m| - 1] == digits;
    m
  }

  /** `k` ASCII zeros. */
  function ZeroBytes(k: nat): (z: seq<Byte>)
    ensures z == Decimal.Zeros(k)
  {
    seq(k, _ => Decimal.Zero)
  }

  /** The validation and decoding after the connection is closed. */
  function DecodeStatus(buf: seq<Byte>): (r: Result<nat, LostReason>)
    ensures r == Failure(NoStatus) <==> buf == []
    ensures r.Failure? && buf != [] ==> r.error == InvalidStatus(buf)
    ensures r.Success? <==> |buf| >= 2 && buf[|buf| - 1] == Newline && Decimal.AllDigits(buf[..|buf| - 1])
  {
    if |buf| == 0 then Failure(NoStatus)
    else if buf[|buf| - 1] != Newline || !Decimal.IsDigitString(buf[..|buf| - 1]) then
      Failure(InvalidStatus(buf))
    else Success(Decimal.Value(buf[..|buf| - 1]))
  }

  /** Round trip: the message the guest writes for `n` decodes to exactly `n`. */
  lemma DecodeEncode(n: nat)
    ensures DecodeStatus(Encode(n)) == Success(n)
  {
    var m := Encode(n);
    assert m[..|m| - 1] == Decimal.Digits(n);
    Decimal.ValueOfDigits(n);
  }

  /** Leading zeros are accepted and ignored: `007\n` decodes to 7. */
  lemma DecodeIgnoresLeadingZeros(k: nat, n: nat)
    ensures DecodeStatus(ZeroBytes(k) + Encode(n)) == Success(n)
  {
    var m := ZeroBytes(k) + Encode(n);
    var digits := Decimal.Digits(n);
    assert m[..|m| - 1] == Decimal.Zeros(k) + digits;
    Decimal.ValueIgnoresLeadingZeros(k, digits);
    Decimal.ValueOfDigits(n);
  }

  /** Every accepted buffer is a message for its value, possibly behind leading zeros; with
      the previous lemma, these are exactly the accepted buffers. */
  lemma DecodeAcceptsOnlyMessages(buf: seq<Byte>)
    requires DecodeStatus(buf).Success?
    ensures exists k: nat :: buf == ZeroBytes(k) + Encode(DecodeStatus(buf).value)
  {
    var digits := buf[..|buf| - 1];
    Decimal.DigitStringShape(digits);
    var k: nat :| digits == Decimal.Zeros(k) + Decimal.Digits(Decimal.Value(digits));
    assert buf == digits + [Newline];
    assert buf == ZeroBytes(k) + Encode(DecodeStatus(buf).value);
  }

  /** An accepted buffer without a redundant leading zero is the guest's message for its
      value, so distinct exit codes never decode alike. */
  lemma DecodeCanonical(buf: seq<Byte>)
    requires DecodeStatus(buf).Success?
    requires |buf| == 2 || buf[0] != Decimal.Zero
    ensures buf == Encode(DecodeStatus(buf).value)
  {
    var digits := buf[..|buf| - 1];
    Decimal.CanonicalDigits(digits);
    assert buf == digits + [Newline];
  }

  /** The rejected payloads: "", "12" (no newline), "abc\n", "1\n2\n", and a lone "\n",
      whose empty prefix is not `isdigit()`. */
  lemma MalformedPayloads()
    ensures DecodeStatus([]) == Failure(NoStatus)
    ensures DecodeStatus([0x31, 0x32]) == Failure(InvalidStatus([0x31, 0x32]))
    ensures DecodeStatus([0x61, 0x62, 0x63, 0x0a]) == Failure(InvalidStatus([0x61, 0x62, 0x63, 0x0a]))
    ensures DecodeStatus([0x31, 0x0a, 0x32, 0x0a]) == Failure(InvalidStatus([0x31, 0x0a, 0x32, 0x0a]))
    ensures DecodeStatus([0x0a]) == Failure(InvalidStatus([0x0a]))
  {
    var b: seq<Byte> := [0x31, 0x0a, 0x32, 0x0a];
    assert !Decimal.IsDigit(b[..3][1]);
    var c: seq<Byte> := [0x61, 0x62, 0x63, 0x0a];
    assert !Decimal.IsDigit(c[..3][0]);
  }

  /** "007\n" decodes to 7 and "255\n" to 255. */
  lemma WellFormedPayloads()
    ensures DecodeStatus([0x30, 0x30, 0x37, 0x0a]) == Success(7)
    ensures DecodeStatus([0x32, 0x35, 0x35, 0x0a]) == Success(255)
  {
    assert Decimal.Digits(7) == [0x37];
    assert ZeroBytes(2) + Encode(7) == [0x30, 0x30, 0x37, 0x0a];
    DecodeIgnoresLeadingZeros(2, 7);
    assert Decimal.Digits(25) == [0x32, 0x35];
    assert Decimal.Digits(255) == [0x32, 0x35, 0x35];
    assert Encode(255) == [0x32, 0x35, 0x35, 0x0a];
    DecodeEncode(255);
  }
}
