/** The "PJ" transport framing of print jobs. */
module Wire {
  import opened Bytes

  const MAGIC: nat := 0x4A50
  const PJ_HEADER_LEN: nat := 8
  /** `usize` is 32 bits wide on the badge. */
  const USIZE_MAX: nat := 0xFFFF_FFFF

  datatype Job = Job(kind: bv8, flags: bv8, payload: seq<bv8>)

  function Magic(buf: seq<bv8>): nat
    requires |buf| >= PJ_HEADER_LEN
  {
    FromLe16(buf[0], buf[1])
  }

  function PayloadLen(buf: seq<bv8>): nat
    requires |buf| >= PJ_HEADER_LEN
  {
    FromLe32(buf[4], buf[5], buf[6], buf[7])
  }

  function Parse(buf: seq<bv8>): Option<Job> {
    if |buf| < PJ_HEADER_LEN then None
    else if Magic(buf) != MAGIC then None
    else
      var end := PJ_HEADER_LEN + PayloadLen(buf);
      if end > USIZE_MAX || |buf| < end then None
      else Some(Job(buf[2], buf[3], buf[PJ_HEADER_LEN..end]))
  }

  function Build(kind: bv8, payload: seq<bv8>): seq<bv8> {
    Le16(MAGIC) + [kind, 0] + Le32(|payload|) + payload
  }

  /** The header of a built frame, as the receiver reads it. */
  lemma BuildHeader(kind: bv8, payload: seq<bv8>, tail: seq<bv8>)
    requires |payload| <= USIZE_MAX
    ensures var buf := Build(kind, payload) + tail;
            && |buf| >= PJ_HEADER_LEN && Magic(buf) == MAGIC && PayloadLen(buf) == |payload|
            && buf[2] == kind && buf[3] == 0
            && buf[PJ_HEADER_LEN..PJ_HEADER_LEN + |payload|] == payload
  {
    hide Lo, Hi, FromLe16, FromLe32;
    var buf, n := Build(kind, payload) + tail, |payload|;
    var len := Le32(n);
    Le16RoundTrip(MAGIC);
    Le32RoundTrip(n);
    assert |len| == 4 && buf == [Lo(MAGIC), Hi(MAGIC), kind, 0] + len + payload + tail;
    assert buf[4] == len[0] && buf[5] == len[1] && buf[6] == len[2] && buf[7] == len[3];
  }

  /** A frame survives the wire, with anything appended to it, exactly when its
      end is an address the badge can represent. */
  lemma {:induction false} ParseBuild(kind: bv8, payload: seq<bv8>, tail: seq<bv8>)
    requires |payload| <= USIZE_MAX
    ensures Parse(Build(kind, payload) + tail) == Some(Job(kind, 0, payload))
       <==> |payload| <= USIZE_MAX - PJ_HEADER_LEN
  {
    hide Magic, PayloadLen, Build;
    BuildHeader(kind, payload, tail);
    BuildSize(kind, payload);
  }

  lemma BuildSize(kind: bv8, payload: seq<bv8>)
    ensures |Build(kind, payload)| == PJ_HEADER_LEN + |payload|
  {
  }

  /** A raster frame of one byte, written out. */
  lemma FrameExample()
    ensures Build(2, [0xAA]) == [0x50, 0x4A, 0x02, 0x00, 0x01, 0x00, 0x00, 0x00, 0xAA]
  {
    hide Le16, Le32;
    MagicBytes();
    LengthOne();
  }

  lemma MagicBytes()
    ensures Le16(MAGIC) == [0x50, 0x4A]
  {
    hide Lo, Hi;
    LoIs(MAGIC, 0x50, 0x50);
    HiIs(MAGIC, 0x4A, 0x4A);
  }

  lemma LengthOne()
    ensures Le32(1) == [0x01, 0x00, 0x00, 0x00]
  {
    hide Lo, Hi;
    LoIs(1, 1, 1);
    HiIs(1, 0, 0);
    LoIs(0, 0, 0);
    HiIs(0, 0, 0);
  }

  /** Bytes after a complete frame do not matter. */
  lemma {:induction false} ParsePrefix(buf: seq<bv8>, tail: seq<bv8>)
    requires Parse(buf).Some?
    ensures Parse(buf + tail) == Parse(buf)
  {
    hide Magic, PayloadLen;
    var end := PJ_HEADER_LEN + PayloadLen(buf);
    assert (buf + tail)[..PJ_HEADER_LEN] == buf[..PJ_HEADER_LEN];
    SameHeader(buf, buf + tail);
    assert (buf + tail)[PJ_HEADER_LEN..end] == buf[PJ_HEADER_LEN..end];
  }

  lemma SameHeader(a: seq<bv8>, b: seq<bv8>)
    requires |a| >= PJ_HEADER_LEN && |b| >= PJ_HEADER_LEN && a[..PJ_HEADER_LEN] == b[..PJ_HEADER_LEN]
    ensures Magic(a) == Magic(b) && PayloadLen(a) == PayloadLen(b) && a[2] == b[2] && a[3] == b[3]
  {
    hide FromLe16, FromLe32;
    forall i | 0 <= i < 8 ensures a[i] == b[i] {
      assert a[i] == a[..PJ_HEADER_LEN][i] && b[i] == b[..PJ_HEADER_LEN][i];
    }
  }
}
