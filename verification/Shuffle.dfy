/** The byte-plane shuffle applied to fixed-width columns before compression. */
module Shuffle {
  import opened Arithmetic
  import opened Bytes

  /** Position `minor` of line `major`, with lines of `width`. */
  function Cell(major: nat, width: nat, minor: nat): nat {
    MulMono(0, major, width);
    major * width + minor
  }

  /** The input position that output position `i` of a shuffle takes its byte from. */
  function ShuffleSource(n: nat, width: nat, i: nat): nat
    requires width > 0 && i < n
  {
    var rows := n / width;
    if i < rows * width then
      Commute(rows, width);
      Cell(i % rows, width, i / rows)
    else i
  }

  function UnshuffleSource(n: nat, width: nat, i: nat): nat
    requires width > 0 && i < n
  {
    var rows := n / width;
    if i < rows * width then Cell(i % width, rows, i / width) else i
  }

  /** Quotients compare like the multiples they come from. */
  lemma QuotientLe(a: nat, b: nat, r: nat, d: nat)
    requires r < d && a * d <= b * d + r
    ensures a <= b
  {
    if b < a {
      MulMono(b + 1, a, d);
    }
  }

  lemma DivMod(q: nat, r: nat, d: nat)
    requires r < d
    ensures (q * d + r) / d == q && (q * d + r) % d == r
  {
    var x := q * d + r;
    assert x == x / d * d + x % d;
    QuotientLe(x / d, q, r, d);
    QuotientLe(q, x / d, x % d, d);
  }

  lemma InGrid(q: nat, r: nat, d: nat, count: nat)
    requires q < count && r < d
    ensures q * d + r < count * d
  {
    MulMono(q + 1, count, d);
  }

  lemma GridOf(i: nat, d: nat, count: nat)
    requires d > 0 && i < count * d
    ensures i / d < count && i % d < d && i == i / d * d + i % d
  {
    if count <= i / d {
      MulMono(count, i / d, d);
    }
  }

  /** The byte plane `plane` of row `row` goes to position `plane * rows + row`. */
  lemma ShuffleAt(n: nat, width: nat, plane: nat, row: nat)
    requires width > 0 && plane < width && row < n / width
    ensures plane * (n / width) + row < n / width * width <= n
    ensures row * width + plane < n
    ensures ShuffleSource(n, width, plane * (n / width) + row) == row * width + plane
    ensures UnshuffleSource(n, width, row * width + plane) == plane * (n / width) + row
  {
    var rows := n / width;
    InGrid(plane, row, rows, width);
    InGrid(row, plane, width, rows);
    assert width * rows == rows * width;
    DivMod(plane, row, rows);
    DivMod(row, plane, width);
    assert n == n / width * width + n % width;
  }

  lemma CellBound(major: nat, width: nat, minor: nat, count: nat, limit: nat)
    requires major < count && minor < width && count * width <= limit
    ensures Cell(major, width, minor) < limit
  {
    InGrid(major, minor, width, count);
  }

  lemma AlignedLe(n: nat, width: nat)
    requires width > 0
    ensures n / width * width <= n
  {
    assert n == n / width * width + n % width;
  }

  lemma ShuffleInRange(n: nat, width: nat, i: nat)
    requires width > 0 && i < n
    ensures ShuffleSource(n, width, i) < n
  {
    var rows := n / width;
    AlignedLe(n, width);
    if i < rows * width {
      Commute(rows, width);
      GridOf(i, rows, width);
      CellBound(i % rows, width, i / rows, rows, n);
    }
  }

  lemma UnshuffleInRange(n: nat, width: nat, i: nat)
    requires width > 0 && i < n
    ensures UnshuffleSource(n, width, i) < n
  {
    var rows := n / width;
    AlignedLe(n, width);
    if i < rows * width {
      Commute(rows, width);
      GridOf(i, width, rows);
      CellBound(i % width, rows, i / width, width, n);
    }
  }

  lemma Commute(a: nat, b: nat)
    ensures a * b == b * a && (a * b > 0 ==> a > 0 && b > 0)
  {
  }

  /** What `shuffle_bytes_into` computes. */
  function Shuffled(s: ByteString, width: nat): (t: ByteString)
    requires width > 0
    ensures |t| == |s|
  {
    seq(|s|, i requires 0 <= i < |s| => ShuffleInRange(|s|, width, i); s[ShuffleSource(|s|, width, i)])
  }

  /** What `unshuffle_bytes` computes. */
  function Unshuffled(s: ByteString, width: nat): (t: ByteString)
    requires width > 0
    ensures |t| == |s|
  {
    seq(|s|, i requires 0 <= i < |s| => UnshuffleInRange(|s|, width, i); s[UnshuffleSource(|s|, width, i)])
  }

  lemma SourcesCancel(n: nat, width: nat, i: nat)
    requires width > 0 && i < n
    ensures UnshuffleSource(n, width, i) < n
    ensures ShuffleSource(n, width, UnshuffleSource(n, width, i)) == i
  {
    var rows := n / width;
    UnshuffleInRange(n, width, i);
    if i < rows * width {
      GridOf(i, width, rows);
      ShuffleAt(n, width, i % width, i / width);
    }
  }

  /** Unshuffling inverts shuffling for every length and every width, aligned or not. */
  lemma UnshuffleInvertsShuffle(s: ByteString, width: nat)
    requires width > 0
    ensures Unshuffled(Shuffled(s, width), width) == s
  {
    var t := Unshuffled(Shuffled(s, width), width);
    forall i | 0 <= i < |s| ensures t[i] == s[i] {
      SourcesCancel(|s|, width, i);
    }
  }

  method ShuffleBytesInto(input: ByteString, width: nat) returns (output: ByteString)
    requires width > 0
    ensures output == Shuffled(input, width)
  {
    var rows, alignedLen := WholeRows(|input|, width);
    ghost var goal := Shuffled(input, width);
    output := [];
    for plane := 0 to width
      invariant |output| == plane * rows && output <= goal
    {
      for row := 0 to rows
        invariant |output| == plane * rows + row && output <= goal
      {
        ShuffleAt(|input|, width, plane, row);
        output := output + [input[row * width + plane]];
        assert goal[..|output|] == goal[..|output| - 1] + [goal[|output| - 1]];
      }
      assert (plane + 1) * rows == plane * rows + rows;
    }
    assert width * rows == rows * width;
    output := output + input[alignedLen..];
    assert forall i :: alignedLen <= i < |input| ==> goal[i] == input[i];
  }

  // ----- Back, plane by plane -----

  function Put(out: ByteString, at: nat, input: ByteString, from: nat): (r: ByteString)
    ensures |r| == |out|
  {
    if at < |out| && from < |input| then out[at := input[from]] else out
  }

  /** The first `n` rows of a plane, each put at its row. */
  function Scattered(out: ByteString, input: ByteString, width: nat, rows: nat, plane: nat, n: nat): (r: ByteString)
    ensures |r| == |out|
  {
    if n == 0 then out
    else Put(Scattered(out, input, width, rows, plane, n - 1), (n - 1) * width + plane, input, plane * rows + (n - 1))
  }

  /** The first `planes` planes. */
  function Gathered(out: ByteString, input: ByteString, width: nat, rows: nat, planes: nat): (r: ByteString)
    ensures |r| == |out|
  {
    if planes == 0 then out
    else Scattered(Gathered(out, input, width, rows, planes - 1), input, width, rows, planes - 1, rows)
  }

  method ScatterPlane(input: ByteString, width: nat, rows: nat, plane: nat, output: array<Byte>)
    requires plane < width && rows * width <= |input| == output.Length
    modifies output
    ensures output[..] == Scattered(old(output[..]), input, width, rows, plane, rows)
  {
    ghost var before := output[..];
    for row: nat := 0 to rows
      invariant output[..] == Scattered(before, input, width, rows, plane, row)
    {
      InGrid(row, plane, width, rows);
      InGrid(plane, row, rows, width);
      Commute(rows, width);
      output[row * width + plane] := input[plane * rows + row];
    }
  }

  method GatherPlanes(input: ByteString, width: nat, rows: nat, output: array<Byte>)
    requires rows * width <= |input| == output.Length
    modifies output
    ensures output[..] == Gathered(old(output[..]), input, width, rows, width)
  {
    ghost var before := output[..];
    for plane: nat := 0 to width
      invariant output[..] == Gathered(before, input, width, rows, plane)
    {
      ScatterPlane(input, width, rows, plane, output);
    }
  }

  method CopyTail(input: ByteString, from: nat, output: array<Byte>)
    requires from <= |input| == output.Length
    modifies output
    ensures output[..from] == old(output[..from]) && output[from..] == input[from..]
  {
    forall k | from <= k < |input| {
      output[k] := input[k];
    }
  }

  /** The whole rows of `n` bytes. */
  method WholeRows(n: nat, width: nat) returns (rows: nat, len: nat)
    requires width > 0
    ensures rows == n / width && len == rows * width <= n
  {
    len := n - n % width;
    assert n == n / width * width + n % width;
    DivMod(n / width, 0, width);
    rows := len / width;
  }

  method UnshuffleBytes(input: ByteString, width: nat, output: array<Byte>)
    requires width > 0 && output.Length == |input|
    modifies output
    ensures output[..] == Unshuffled(input, width)
  {
    var rows, len := WholeRows(|input|, width);
    ghost var before := output[..];
    GatherPlanes(input, width, rows, output);
    GatheredFills(before, input, width, rows, width);
    ghost var gathered := output[..];
    CopyTail(input, len, output);
    AllFilled(gathered, output[..], input, width, len);
  }

  /** The row and the plane of a position. */
  function RowOf(i: nat, width: nat): nat
    requires width > 0
  {
    if i < width then 0 else 1 + RowOf(i - width, width)
  }

  function PlaneOf(i: nat, width: nat): (p: nat)
    requires width > 0
    ensures p < width
  {
    if i < width then i else PlaneOf(i - width, width)
  }

  lemma {:induction false} RowAndPlane(i: nat, width: nat)
    requires width > 0
    ensures i == RowOf(i, width) * width + PlaneOf(i, width)
  {
    if i >= width {
      RowAndPlane(i - width, width);
      assert (1 + RowOf(i - width, width)) * width == width + RowOf(i - width, width) * width;
    }
  }

  lemma RowsBounded(i: nat, width: nat, rows: nat)
    requires width > 0 && i < rows * width
    ensures RowOf(i, width) < rows
  {
    RowAndPlane(i, width);
    if rows <= RowOf(i, width) {
      MulMono(rows, RowOf(i, width), width);
    }
  }

  /** All planes before `plane`, and the first rows of `plane` itself, are in place. */
  ghost predicate Filled(out: ByteString, goal: ByteString, width: nat, len: nat, plane: nat, row: nat)
    requires width > 0
  {
    && |out| == |goal| && len <= |goal|
    && forall i :: 0 <= i < len && (PlaneOf(i, width) < plane || (PlaneOf(i, width) == plane && RowOf(i, width) < row)) ==>
         out[i] == goal[i]
  }

  lemma FillOne(out: ByteString, goal: ByteString, width: nat, len: nat, plane: nat, row: nat)
    requires width > 0 && plane < width && row * width + plane < len
    requires Filled(out, goal, width, len, plane, row)
    ensures Filled(out[row * width + plane := goal[row * width + plane]], goal, width, len, plane, row + 1)
  {
    var at := row * width + plane;
    forall i | 0 <= i < len && PlaneOf(i, width) == plane && RowOf(i, width) == row ensures i == at {
      RowAndPlane(i, width);
    }
  }

  lemma FillRow(out: ByteString, goal: ByteString, width: nat, len: nat, plane: nat, rows: nat)
    requires width > 0 && len == rows * width && Filled(out, goal, width, len, plane, rows)
    ensures Filled(out, goal, width, len, plane + 1, 0)
  {
    forall i | 0 <= i < len ensures RowOf(i, width) < rows {
      RowsBounded(i, width, rows);
    }
  }

  lemma {:induction false} ScatteredFills(out: ByteString, input: ByteString, width: nat, rows: nat, plane: nat, n: nat)
    requires width > 0 && rows == |input| / width && plane < width && n <= rows && rows * width <= |input|
    requires Filled(out, Unshuffled(input, width), width, rows * width, plane, 0)
    ensures Filled(Scattered(out, input, width, rows, plane, n), Unshuffled(input, width), width, rows * width, plane, n)
  {
    if n > 0 {
      ScatteredFills(out, input, width, rows, plane, n - 1);
      ShuffleAt(|input|, width, plane, n - 1);
      InGrid(n - 1, plane, width, rows);
      FillOne(Scattered(out, input, width, rows, plane, n - 1), Unshuffled(input, width), width, rows * width, plane, n - 1);
    }
  }

  lemma {:induction false} GatheredFills(out: ByteString, input: ByteString, width: nat, rows: nat, planes: nat)
    requires width > 0 && rows == |input| / width && planes <= width && |out| == |input|
    ensures rows * width <= |input|
    ensures Filled(Gathered(out, input, width, rows, planes), Unshuffled(input, width), width, rows * width, planes, 0)
  {
    AlignedLe(|input|, width);
    if planes > 0 {
      GatheredFills(out, input, width, rows, planes - 1);
      ScatteredFills(Gathered(out, input, width, rows, planes - 1), input, width, rows, planes - 1, rows);
      FillRow(Gathered(out, input, width, rows, planes), Unshuffled(input, width), width, rows * width, planes - 1, rows);
    }
  }

  /** All planes and the unaligned tail make up the whole. */
  lemma AllFilled(gathered: ByteString, out: ByteString, input: ByteString, width: nat, len: nat)
    requires width > 0 && |gathered| == |out| == |input| && len == |input| / width * width <= |input|
    requires Filled(gathered, Unshuffled(input, width), width, len, width, 0)
    requires out[..len] == gathered[..len] && out[len..] == input[len..]
    ensures out == Unshuffled(input, width)
  {
    forall i | 0 <= i < |input| ensures out[i] == Unshuffled(input, width)[i] {
      if i < len {
        assert PlaneOf(i, width) < width && out[..len][i] == gathered[..len][i];
      } else {
        assert out[len..][i - len] == input[len..][i - len];
      }
    }
  }
}
