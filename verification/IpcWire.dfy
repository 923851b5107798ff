/**
 The simulator IPC on the wire: the packed request and response layouts, and `send_all` and
 `recv_all`, which move a buffer over a byte stream the operating system may split anywhere.
 */
module IpcWire {
  import opened LittleEndian

  const CMD_PING: Byte := 0x01
  const CMD_WRITE32: Byte := 0x10
  const CMD_READ32: Byte := 0x11
  const CMD_NPI_WRITE32: Byte := 0x12
  const CMD_NPI_READ32: Byte := 0x13
  const CMD_WRITE_GM: Byte := 0x20
  const CMD_READ_GM: Byte := 0x21
  const CMD_ALLOC_GM: Byte := 0x22
  const CMD_FREE_GM: Byte := 0x23
  const CMD_START_PLIO: Byte := 0x30
  const CMD_GRAPH_INIT: Byte := 0x40
  const CMD_EXIT: Byte := 0xFF

  const STATUS_OK: Byte := 0
  const STATUS_ERR_PROTO: Byte := 1
  const STATUS_ERR_IO: Byte := 2

  datatype Request = Request(cmd: Byte, arg1: U64, arg2: U32)
  datatype Response = Response(status: Byte, value: U64)

  const HEADER := 16

  /** One command byte, three reserved bytes, then the two arguments. */
  function EncodeRequest(r: Request): (bs: seq<Byte>)
    ensures |bs| == HEADER
  {
    [r.cmd, 0, 0, 0] + Encode(r.arg1, 8) + Encode(r.arg2, 4)
  }

  function DecodeRequest(bs: seq<Byte>): Request
    requires |bs| == HEADER
  {
    Spans();
    Request(bs[0], Decode(bs[4..12]), Decode(bs[12..]))
  }

  /** One status byte, seven reserved bytes, then the value. */
  function EncodeResponse(r: Response): (bs: seq<Byte>)
    ensures |bs| == HEADER
  {
    [r.status, 0, 0, 0, 0, 0, 0, 0] + Encode(r.value, 8)
  }

  function DecodeResponse(bs: seq<Byte>): Response
    requires |bs| == HEADER
  {
    Spans();
    Response(bs[0], Decode(bs[8..]))
  }

  lemma RequestRoundTrip(r: Request)
    ensures DecodeRequest(EncodeRequest(r)) == r
  {
    DecodeEncode64(r.arg1);
    DecodeEncode32(r.arg2);
    var bs := EncodeRequest(r);
    assert bs[4..12] == Encode(r.arg1, 8);
    assert bs[12..] == Encode(r.arg2, 4);
  }

  lemma ResponseRoundTrip(r: Response)
    ensures DecodeResponse(EncodeResponse(r)) == r
  {
    DecodeEncode64(r.value);
    assert EncodeResponse(r)[8..] == Encode(r.value, 8);
  }

  /** Where the fields of a request are: the command in byte 0, the arguments in bytes 4 to 11 and
      12 to 15, least significant byte first, and nothing in between. */
  lemma RequestLayout(r: Request)
    ensures var bs := EncodeRequest(r);
            && bs[0] == r.cmd && bs[1] == bs[2] == bs[3] == 0
            && Decode(bs[4..12]) == r.arg1 && Decode(bs[12..16]) == r.arg2
  {
    RequestRoundTrip(r);
    assert EncodeRequest(r)[12..16] == EncodeRequest(r)[12..];
  }

  /** Of a response: the status in byte 0, the value in bytes 8 to 15. */
  lemma ResponseLayout(r: Response)
    ensures var bs := EncodeResponse(r);
            bs[0] == r.status && Decode(bs[8..16]) == r.value && forall i :: 1 <= i < 8 ==> bs[i] == 0
  {
    ResponseRoundTrip(r);
    assert EncodeResponse(r)[8..16] == EncodeResponse(r)[8..];
  }

  /** What one `read` or `write` system call answers. */
  datatype OsAnswer = Moved(n: nat) | Interrupted | Failed

  /** `Blocked` is a loop that is still waiting when the given answers run out. */
  datatype Outcome = Done | Error | Blocked

  /** A system call moves at most what it was asked to and what there is. */
  function Least(n: nat, m: nat): nat {
    if n <= m then n else m
  }

  /** The answers of a connection that stays up: interruptions and progress. */
  predicate Healthy(answers: seq<OsAnswer>) {
    forall a :: a in answers ==> a.Interrupted? || (a.Moved? && a.n > 0)
  }

  /** `send_all`: whatever the splits and interruptions, the stream receives a prefix of the
      buffer, which is all of it exactly when the call succeeds. */
  method SendAll(stream: seq<Byte>, buf: seq<Byte>, answers: seq<OsAnswer>)
    returns (out: seq<Byte>, r: Outcome, ghost sent: nat)
    ensures sent <= |buf| && out == stream + buf[..sent]
    ensures r == Done <==> sent == |buf|
    ensures r == Done ==> out == stream + buf
    ensures Healthy(answers) ==> r != Error
  {
    var p, remaining, k := 0, |buf|, 0;
    out, r, sent := stream, Blocked, 0;
    while remaining > 0 && k < |answers|
      invariant 0 <= p <= |buf| && remaining == |buf| - p && k <= |answers|
      invariant out == stream + buf[..p] && sent == p && r == Blocked
      decreases |answers| - k
    {
      var a := answers[k];
      assert a in answers;
      k := k + 1;
      match a {
        case Interrupted =>
        case Failed => return out, Error, sent;
        case Moved(n) =>
          var m := Least(n, remaining);
          if m == 0 {
            return out, Error, sent;
          }
          out := out + buf[p..p + m];
          assert buf[..p + m] == buf[..p] + buf[p..p + m];
          p, remaining, sent := p + m, remaining - m, sent + m;
      }
    }
    if remaining == 0 {
      assert buf[..p] == buf;
      r := Done;
    }
  }

  /** `recv_all`: the bytes obtained and the bytes left are the stream, and on success
      exactly `n` bytes, the next ones, were taken. */
  method RecvAll(stream: seq<Byte>, n: nat, answers: seq<OsAnswer>)
    returns (got: seq<Byte>, rest: seq<Byte>, r: Outcome)
    ensures got + rest == stream && |got| + |rest| == |stream|
    ensures |got| <= n
    ensures r == Done <==> |got| == n
    ensures Healthy(answers) && n <= |stream| ==> r != Error
  {
    var remaining, k := n, 0;
    got, rest, r := [], stream, Blocked;
    while remaining > 0 && k < |answers|
      invariant remaining == n - |got| >= 0 && k <= |answers|
      invariant got + rest == stream && |got| + |rest| == |stream| && r == Blocked
      decreases |answers| - k
    {
      var a := answers[k];
      assert a in answers;
      k := k + 1;
      match a {
        case Interrupted =>
        case Failed => return got, rest, Error;
        case Moved(most) =>
          var m := Least(Least(most, remaining), |rest|);
          if m == 0 {
            return got, rest, Error;
          }
          got, rest := got + rest[..m], rest[m..];
          remaining := remaining - m;
      }
    }
    if remaining == 0 {
      r := Done;
    }
  }
}
