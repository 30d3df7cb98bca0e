/** The payload of a raster job. */
module Raster {
  import opened Bytes
  import opened Proto

  const MAGIC: nat := 0x5450
  const VERSION: bv8 := 1
  const HEADER_LEN: nat := 12
  const MAX_WIDTH_PX: nat := 384
  const MAX_HEIGHT_PX: nat := 2048

  datatype Job = Job(width: nat, height: nat, stride: nat, rows: seq<bv8>)

  function Build(width: nat, height: nat, stride: nat, rows: seq<bv8>): seq<bv8> {
    Le16(MAGIC) + [VERSION, 0] + Le16(width) + Le16(height) + Le16(stride) + Le16(0) + rows
  }

  /** The geometry a job may have. */
  predicate Printable(width: nat, height: nat, stride: nat) {
    1 <= width <= 384 && 1 <= height <= 2048 && width <= 8 * stride
  }

  /** The 16-bit field at offset `at` of a payload. */
  function Field(payload: seq<bv8>, at: nat): nat
    requires at + 1 < |payload|
  {
    FromLe16(payload[at], payload[at + 1])
  }

  function Area(stride: nat, height: nat): nat { stride * height }

  function Parse(payload: seq<bv8>): Option<Job> {
    if |payload| < HEADER_LEN then None
    else if Field(payload, 0) != MAGIC || payload[2] != VERSION then None
    else
      var width, height, stride := Field(payload, 4), Field(payload, 6), Field(payload, 8);
      if width == 0 || width > MAX_WIDTH_PX || height == 0 || height > MAX_HEIGHT_PX then None
      else if stride < (width + 7) / 8 then None
      else
        var need := Area(stride, height);
        if |payload| < HEADER_LEN + need then None
        else Some(Job(width, height, stride, payload[HEADER_LEN..HEADER_LEN + need]))
  }

  lemma BuildFields(width: nat, height: nat, stride: nat, rows: seq<bv8>)
    requires width < 0x1_0000 && height < 0x1_0000 && stride < 0x1_0000
    ensures var p := Build(width, height, stride, rows);
            && |p| == HEADER_LEN + |rows| && p[HEADER_LEN..] == rows
            && Field(p, 0) == MAGIC && p[2] == VERSION
            && Field(p, 4) == width && Field(p, 6) == height && Field(p, 8) == stride
  {
    hide Lo, Hi, FromLe16;
    Le16RoundTrip(MAGIC);
    Le16RoundTrip(width);
    Le16RoundTrip(height);
    Le16RoundTrip(stride);
  }

  /** A built payload parses exactly when its geometry is printable and it holds
      enough row bytes; it then gives back the geometry and just those bytes. */
  lemma {:induction false} ParseBuild(width: nat, height: nat, stride: nat, rows: seq<bv8>)
    requires width < 0x1_0000 && height < 0x1_0000 && stride < 0x1_0000
    ensures var r := Parse(Build(width, height, stride, rows));
            && (r.Some? <==> Printable(width, height, stride) && |rows| >= Area(stride, height))
            && (r.Some? ==> r.value == Job(width, height, stride, rows[..Area(stride, height)]))
  {
    hide Field, Build, Area;
    BuildFields(width, height, stride, rows);
    var p, need := Build(width, height, stride, rows), Area(stride, height);
    if |rows| >= need {
      assert p[HEADER_LEN..HEADER_LEN + need] == p[HEADER_LEN..][..need];
    }
  }

  /** Bytes 3, 10 and 11 have no influence on what is accepted. */
  lemma {:induction false} ReservedIgnored(p: seq<bv8>, q: seq<bv8>)
    requires |p| == |q| && forall i :: 0 <= i < |p| && i != 3 && i != 10 && i != 11 ==> p[i] == q[i]
    ensures Parse(p) == Parse(q)
  {
    hide FromLe16, Area;
    if |p| >= HEADER_LEN {
      assert p[HEADER_LEN..] == q[HEADER_LEN..];
      var need := Area(Field(p, 8), Field(p, 6));
      if |p| >= HEADER_LEN + need {
        assert p[HEADER_LEN..HEADER_LEN + need] == p[HEADER_LEN..][..need];
        assert q[HEADER_LEN..HEADER_LEN + need] == q[HEADER_LEN..][..need];
      }
    }
  }

  /** An accepted payload follows the format exactly when those bytes are 0. */
  lemma {:induction false} AcceptedFollowsFormat(p: seq<bv8>)
    requires Parse(p).Some?
    ensures var j := Parse(p).value;
            p == Build(j.width, j.height, j.stride, p[HEADER_LEN..]) <==> p[3] == 0 && p[10] == 0 && p[11] == 0
  {
    hide FromLe16, Area, Le16;
    var j := Parse(p).value;
    var b := Build(j.width, j.height, j.stride, p[HEADER_LEN..]);
    Le16Fields(p, 0);
    Le16Fields(p, 4);
    Le16Fields(p, 6);
    Le16Fields(p, 8);
    ZeroField();
    assert b == [p[0], p[1], VERSION, 0, p[4], p[5], p[6], p[7], p[8], p[9], 0, 0] + p[HEADER_LEN..];
    assert p == p[..HEADER_LEN] + p[HEADER_LEN..];
  }

  lemma Le16Fields(p: seq<bv8>, at: nat)
    requires at + 1 < |p|
    ensures Le16(Field(p, at)) == [p[at], p[at + 1]]
  {
    FromLe16RoundTrip(p[at], p[at + 1]);
  }

  lemma ZeroField()
    ensures Le16(0) == [0, 0]
  {
  }

  /** One that does not, and is accepted. */
  lemma ReservedInUse()
    ensures var p: seq<bv8> := [0x50, 0x54, 1, 7, 9, 0, 3, 0, 2, 0, 9, 9, 1, 2, 3, 4, 5, 6];
            Parse(p) == Some(Job(9, 3, 2, [1, 2, 3, 4, 5, 6]))
  {
    var p: seq<bv8> := [0x50, 0x54, 1, 7, 9, 0, 3, 0, 2, 0, 9, 9, 1, 2, 3, 4, 5, 6];
    assert Field(p, 0) == MAGIC && Field(p, 4) == 9 && Field(p, 6) == 3 && Field(p, 8) == 2;
    assert Area(2, 3) == 6 && p[12..18] == [1, 2, 3, 4, 5, 6];
  }

  /** Whatever payload is accepted, framing its rows never leaves the row bytes. */
  lemma {:induction false} ParsedRowsInside(payload: seq<bv8>)
    requires Parse(payload).Some?
    ensures var j := Parse(payload).value;
            && Printable(j.width, j.height, j.stride)
            && |j.rows| == Area(j.stride, j.height)
            && RowsInside(j.rows, j.stride, j.height)
  {
    hide Field, RowsInside, Area;
    var j := Parse(payload).value;
    WholeRowsInside(j.rows, j.stride, j.height);
  }

  /** A raster that holds all its rows in full can be framed. */
  lemma WholeRowsInside(bits: seq<bv8>, stride: nat, height: nat)
    requires |bits| >= Area(stride, height)
    ensures RowsInside(bits, stride, height)
  {
    forall y: nat | y < height ensures RowStart(stride, y) + RowWidth(stride) <= |bits| {
      RowEnd(stride, y, height);
    }
  }

  lemma RowEnd(stride: nat, y: nat, height: nat)
    requires y < height
    ensures RowStart(stride, y) + stride <= Area(stride, height)
  {
    assert (y + 1) * stride <= height * stride;
  }
}
