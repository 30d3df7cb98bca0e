/** The receive loop of the print server. */
module NetJob {
  import opened Bytes
  import Wire

  const MAX_JOB: nat := 128 * 1024
  const CHUNK_LEN: nat := 2048

  /** What one turn of the receive loop sees: the deadline, or a read result. */
  datatype Read = Data(bytes: seq<bv8>) | Eof | Error | Deadline

  /** A read fills at most the 2048-byte chunk; `Ok(0)` is the end of file. */
  ghost predicate ValidReads(chunks: seq<Read>) {
    forall i :: 0 <= i < |chunks| && chunks[i].Data? ==> 1 <= |chunks[i].bytes| <= CHUNK_LEN
  }

  /** Everything the connection delivers before it ends or the deadline passes. */
  function Received(chunks: seq<Read>): seq<bv8> {
    if chunks == [] || !chunks[0].Data? then [] else chunks[0].bytes + Received(chunks[1..])
  }

  /** True once the header is in and announces something other than a job of
      allowed size. */
  predicate BadHeader(s: seq<bv8>) {
    |s| >= Wire.PJ_HEADER_LEN
    && (Wire.Magic(s) != 0x4A50 || Wire.PayloadLen(s) > 128 * 1024 - 8)
  }

  /** The job in a byte stream, independent of how it arrives. */
  function JobIn(s: seq<bv8>): Option<Wire.Job> {
    if BadHeader(s) then None else Wire.Parse(s)
  }

  /** The job is what a good header of allowed size at the start of `s` announces. */
  predicate InStream(j: Wire.Job, s: seq<bv8>) {
    var n := Wire.PJ_HEADER_LEN;
    && |j.payload| <= MAX_JOB - n && n + |j.payload| <= |s| && s[n..n + |j.payload|] == j.payload
    && j.kind == s[2] && j.flags == s[3] && Wire.Magic(s) == Wire.MAGIC && Wire.PayloadLen(s) == |j.payload|
  }

  /** What `serve_net_job` hands to the job handler. */
  datatype Handover = Rejected | Buffer(buf: seq<bv8>)

  function JobOf(h: Handover): Option<Wire.Job> {
    match h
    case Rejected => None
    case Buffer(buf) => Wire.Parse(buf)
  }

  /** However the stream is cut into reads, the job handed over is the job in
      the received bytes, and the buffer stays bounded. */
  method ServeNetJob(chunks: seq<Read>) returns (h: Handover)
    requires ValidReads(chunks)
    ensures JobOf(h) == JobIn(Received(chunks))
    ensures h.Rejected? <==> BadHeader(Received(chunks))
    ensures h.Buffer? ==> |h.buf| < 128 * 1024 + 2048 && h.buf <= Received(chunks)
    ensures JobOf(h).Some? ==> InStream(JobOf(h).value, Received(chunks))
  {
    hide Wire.Magic, Wire.PayloadLen, Wire.Parse, Announces, Received, JobIn;
    var buf: seq<bv8> := [];
    var want: Option<nat> := None;
    var i := 0;
    ghost var all := Received(chunks);
    if JobIn(all).Some? {
      OnlyFramesAccepted(all);
    }
    while i < |chunks| && chunks[i].Data?
      invariant i <= |chunks|
      invariant all == buf + Received(chunks[i..])
      invariant want.None? ==> |buf| < Wire.PJ_HEADER_LEN
      invariant want.Some? ==> Announces(buf, want.value) && |buf| < want.value
    {
      ReceivedStep(chunks, i);
      ghost var held := buf;
      buf := buf + chunks[i].bytes;
      i := i + 1;
      if want.None? && |buf| >= Wire.PJ_HEADER_LEN {
        HeaderSettled(buf, all);
        var len := Wire.PayloadLen(buf);
        if Wire.Magic(buf) != Wire.MAGIC || len > MAX_JOB - Wire.PJ_HEADER_LEN {
          assert BadHeader(all);
          BadHeaderHoldsNoJob(all);
          return Rejected;
        }
        var total := Wire.PJ_HEADER_LEN + len;
        GoodHeader(buf, total);
        if total < |buf| {
          buf := buf[..total];
        }
        want := Some(total);
      } else if want.Some? {
        MoreBytes(held, buf, want.value);
      }
      if want.Some? && |buf| >= want.value {
        CompleteFrame(buf, all, want.value);
        return Buffer(buf);
      }
    }
    ReceivedEnd(chunks, i);
    assert buf + [] == buf;
    IncompleteFrame(buf, want);
    h := Buffer(buf);
  }

  lemma BadHeaderHoldsNoJob(all: seq<bv8>)
    requires BadHeader(all)
    ensures JobIn(all) == None
  {
  }

  lemma ReceivedStep(chunks: seq<Read>, i: nat)
    requires i < |chunks| && chunks[i].Data?
    ensures Received(chunks[i..]) == chunks[i].bytes + Received(chunks[i + 1..])
  {
    assert chunks[i..][1..] == chunks[i + 1..];
  }

  lemma ReceivedEnd(chunks: seq<Read>, i: nat)
    requires i <= |chunks| && (i < |chunks| ==> !chunks[i].Data?)
    ensures Received(chunks[i..]) == []
  {
  }

  /** The header of `s` is good and announces a frame of `total` bytes. */
  predicate Announces(s: seq<bv8>, total: nat) {
    |s| >= Wire.PJ_HEADER_LEN && !BadHeader(s) && total == Wire.PJ_HEADER_LEN + Wire.PayloadLen(s)
  }

  /** The first eight bytes settle the header. */
  lemma HeaderSettled(s: seq<bv8>, all: seq<bv8>)
    requires Wire.PJ_HEADER_LEN <= |s| && s <= all
    ensures Wire.Magic(s) == Wire.Magic(all) && Wire.PayloadLen(s) == Wire.PayloadLen(all)
  {
    assert s[..Wire.PJ_HEADER_LEN] == all[..Wire.PJ_HEADER_LEN];
    Wire.SameHeader(s, all);
  }

  /** Cutting a buffer to the announced frame keeps what it announces. */
  lemma GoodHeader(s: seq<bv8>, total: nat)
    requires |s| >= Wire.PJ_HEADER_LEN && !BadHeader(s) && total == Wire.PJ_HEADER_LEN + Wire.PayloadLen(s)
    ensures Announces(s, total)
    ensures total < |s| ==> Announces(s[..total], total)
    ensures total <= MAX_JOB
  {
    hide Wire.Magic, Wire.PayloadLen;
    if total < |s| {
      HeaderSettled(s[..total], s);
    }
  }

  lemma MoreBytes(held: seq<bv8>, s: seq<bv8>, total: nat)
    requires Announces(held, total) && held <= s
    ensures Announces(s, total) && total <= MAX_JOB
  {
    hide Wire.Magic, Wire.PayloadLen;
    HeaderSettled(held, s);
  }

  lemma CompleteFrame(buf: seq<bv8>, all: seq<bv8>, total: nat)
    requires Announces(buf, total) && |buf| >= total && buf <= all
    ensures Wire.Parse(buf) == JobIn(all) && !BadHeader(all)
  {
    hide Wire.Magic, Wire.PayloadLen;
    HeaderSettled(buf, all);
    assert Wire.Parse(buf).Some?;
    assert all == buf + all[|buf|..];
    Wire.ParsePrefix(buf, all[|buf|..]);
  }

  lemma IncompleteFrame(buf: seq<bv8>, want: Option<nat>)
    requires want.None? ==> |buf| < Wire.PJ_HEADER_LEN
    requires want.Some? ==> Announces(buf, want.value) && |buf| < want.value
    ensures Wire.Parse(buf) == JobIn(buf) && !BadHeader(buf) && |buf| < MAX_JOB
  {
    hide Wire.Magic, Wire.PayloadLen;
  }

  /** A frame of allowed size that has arrived in full is handed over, whatever
      the connection does after it. */
  lemma {:induction false} FrameArrives(kind: bv8, payload: seq<bv8>, tail: seq<bv8>, chunks: seq<Read>)
    requires |payload| <= MAX_JOB - Wire.PJ_HEADER_LEN
    requires Received(chunks) == Wire.Build(kind, payload) + tail
    ensures JobIn(Received(chunks)) == Some(Wire.Job(kind, 0, payload))
  {
    hide Wire.Magic, Wire.PayloadLen, Wire.Parse, Wire.Build;
    Wire.ParseBuild(kind, payload, tail);
    Wire.BuildHeader(kind, payload, tail);
  }

  lemma {:induction false} OnlyFramesAccepted(s: seq<bv8>)
    requires JobIn(s).Some?
    ensures InStream(JobIn(s).value, s)
  {
    hide Wire.Magic, Wire.PayloadLen;
  }
}
