/** Little-endian integers and rectangular tensors in row-major order. */
module Bytes {
  import opened Utf8

  function Pow256(k: nat): (r: nat)
    ensures r > 0
  {
    if k == 0 then 1 else 256 * Pow256(k - 1)
  }

  /** The `k` low bytes of `n`, lowest first. */
  function Little(n: nat, k: nat): (bs: seq<Byte>)
    ensures |bs| == k
    decreases k
  {
    if k == 0 then [] else [n % 256] + Little(n / 256, k - 1)
  }

  function FromLittle(bs: seq<Byte>): nat {
    if bs == [] then 0 else bs[0] + 256 * FromLittle(bs[1..])
  }

  lemma {:induction false} FromLittleUndoes(n: nat, k: nat)
    requires n < Pow256(k)
    ensures FromLittle(Little(n, k)) == n
    decreases k
  {
    if k > 0 {
      assert Little(n, k)[1..] == Little(n / 256, k - 1);
      FromLittleUndoes(n / 256, k - 1);
    }
  }

  lemma {:induction false} LittleUndoes(bs: seq<Byte>)
    ensures FromLittle(bs) < Pow256(|bs|)
    ensures Little(FromLittle(bs), |bs|) == bs
  {
    if bs != [] {
      LittleUndoes(bs[1..]);
      var n := FromLittle(bs);
      assert n % 256 == bs[0] && n / 256 == FromLittle(bs[1..]);
      assert bs == [bs[0]] + bs[1..];
    }
  }

  /** The bit pattern of a 32-bit float. */
  type Float = f: nat | f < 0x1_0000_0000

  lemma Pow256Of4()
    ensures Pow256(4) == 0x1_0000_0000
  {
    assert Pow256(2) == 65536;
    assert Pow256(3) == 16777216;
  }

  function FloatBytes(f: Float): (bs: seq<Byte>)
    ensures |bs| == 4
  {
    Little(f, 4)
  }

  function FloatOf(bs: seq<Byte>): Float
    requires |bs| == 4
  {
    LittleUndoes(bs);
    Pow256Of4();
    FromLittle(bs)
  }

  /** The bytes of consecutive floats. */
  function ToBytes(fs: seq<Float>): (bs: seq<Byte>)
    ensures |bs| == 4 * |fs|
  {
    if fs == [] then [] else FloatBytes(fs[0]) + ToBytes(fs[1..])
  }

  /** `np.frombuffer(bs, dtype='<f4')` */
  function FromBytes(bs: seq<Byte>): (fs: seq<Float>)
    requires |bs| % 4 == 0
    ensures 4 * |fs| == |bs|
  {
    if bs == [] then [] else [FloatOf(bs[..4])] + FromBytes(bs[4..])
  }

  lemma {:induction false} FromBytesUndoes(fs: seq<Float>)
    ensures FromBytes(ToBytes(fs)) == fs
  {
    if fs != [] {
      var bs := ToBytes(fs);
      Pow256Of4();
      FromLittleUndoes(fs[0], 4);
      assert bs[..4] == FloatBytes(fs[0]) && bs[4..] == ToBytes(fs[1..]);
      FromBytesUndoes(fs[1..]);
    }
  }

  lemma {:induction false} ToBytesUndoes(bs: seq<Byte>)
    requires |bs| % 4 == 0
    ensures ToBytes(FromBytes(bs)) == bs
  {
    if bs != [] {
      LittleUndoes(bs[..4]);
      assert FromBytes(bs)[1..] == FromBytes(bs[4..]);
      ToBytesUndoes(bs[4..]);
      assert bs == bs[..4] + bs[4..];
    }
  }

  lemma ToBytesHead(x: Float, rest: seq<Float>)
    ensures ToBytes([x] + rest) == FloatBytes(x) + ToBytes(rest)
  {
    assert ([x] + rest)[1..] == rest;
  }

  lemma Regroup<T>(a: seq<T>, b: seq<T>, c: seq<T>)
    ensures (a + b) + c == a + (b + c)
  {
  }

  lemma {:induction false} ToBytesConcat(a: seq<Float>, b: seq<Float>)
    ensures ToBytes(a + b) == ToBytes(a) + ToBytes(b)
  {
    if a == [] {
      assert a + b == b;
    } else {
      var x, rest := a[0], a[1..];
      assert a == [x] + rest;
      Regroup([x], rest, b);
      ToBytesHead(x, rest);
      ToBytesHead(x, rest + b);
      ToBytesConcat(rest, b);
      Regroup(FloatBytes(x), ToBytes(rest), ToBytes(b));
    }
  }

  // ----- Tensors -----

  type Vector = seq<Float>
  type Tensor = seq<Vector>

  ghost predicate Shape(t: Tensor, rows: nat, columns: nat) {
    |t| == rows && forall i :: 0 <= i < |t| ==> |t[i]| == columns
  }

  /** Row-major order. */
  function Flatten(t: Tensor): Vector {
    if t == [] then [] else t[0] + Flatten(t[1..])
  }

  /** `data.reshape(rows, columns)` */
  function Reshape(data: Vector, rows: nat, columns: nat): (t: Tensor)
    requires |data| == rows * columns
    ensures Shape(t, rows, columns)
    decreases rows
  {
    if rows == 0 then [] else
      assert rows * columns == (rows - 1) * columns + columns;
      [data[..columns]] + Reshape(data[columns..], rows - 1, columns)
  }

  function Transpose(t: Tensor, rows: nat, columns: nat): (r: Tensor)
    requires Shape(t, rows, columns)
    ensures Shape(r, columns, rows)
    ensures forall i, j :: 0 <= i < rows && 0 <= j < columns ==> r[j][i] == t[i][j]
  {
    seq(columns, j requires 0 <= j < columns => seq(rows, i requires 0 <= i < rows => t[i][j]))
  }

  lemma TransposeTwice(t: Tensor, rows: nat, columns: nat)
    requires Shape(t, rows, columns)
    ensures Transpose(Transpose(t, rows, columns), columns, rows) == t
  {
    var u := Transpose(Transpose(t, rows, columns), columns, rows);
    forall i | 0 <= i < rows
      ensures u[i] == t[i]
    {
      forall j | 0 <= j < columns
        ensures u[i][j] == t[i][j]
      {
      }
    }
  }

  lemma {:induction false} FlattenSize(t: Tensor, rows: nat, columns: nat)
    requires Shape(t, rows, columns)
    ensures |Flatten(t)| == rows * columns
    decreases rows
  {
    if rows > 0 {
      FlattenSize(t[1..], rows - 1, columns);
      assert rows * columns == (rows - 1) * columns + columns;
    }
  }

  lemma {:induction false} ReshapeUndoesFlatten(t: Tensor, rows: nat, columns: nat)
    requires Shape(t, rows, columns)
    ensures |Flatten(t)| == rows * columns && Reshape(Flatten(t), rows, columns) == t
    decreases rows
  {
    FlattenSize(t, rows, columns);
    if rows > 0 {
      FlattenSize(t[1..], rows - 1, columns);
      ReshapeUndoesFlatten(t[1..], rows - 1, columns);
      assert Flatten(t)[..columns] == t[0] && Flatten(t)[columns..] == Flatten(t[1..]);
    }
  }

  lemma {:induction false} FlattenUndoesReshape(data: Vector, rows: nat, columns: nat)
    requires |data| == rows * columns
    ensures Flatten(Reshape(data, rows, columns)) == data
    decreases rows
  {
    if rows > 0 {
      assert rows * columns == (rows - 1) * columns + columns;
      var t := Reshape(data, rows, columns);
      assert t[1..] == Reshape(data[columns..], rows - 1, columns);
      FlattenUndoesReshape(data[columns..], rows - 1, columns);
      assert data == data[..columns] + data[columns..];
    }
  }

  /** Entry (r, c) stands at r times the row length plus c. */
  lemma {:induction false} FlattenAt(t: Tensor, rows: nat, columns: nat, r: nat, c: nat)
    requires Shape(t, rows, columns) && r < rows && c < columns
    ensures r * columns + c < |Flatten(t)| && Flatten(t)[r * columns + c] == t[r][c]
    decreases rows
  {
    FlattenSize(t[1..], rows - 1, columns);
    FlattenSize(t, rows, columns);
    if r == 0 {
      assert r * columns + c == c;
    } else {
      FlattenAt(t[1..], rows - 1, columns, r - 1, c);
      assert r * columns + c == columns + ((r - 1) * columns + c);
    }
  }

  lemma SliceLater(head: seq<Byte>, rest: seq<Byte>, start: nat, n: nat)
    requires start + n <= |rest|
    ensures (head + rest)[|head| + start..|head| + start + n] == rest[start..start + n]
  {
  }

  /** Float `i` of a file takes the bytes from 4 times `i` on. */
  lemma {:induction false} ToBytesAt(fs: seq<Float>, i: nat)
    requires i < |fs|
    ensures ToBytes(fs)[4 * i..4 * i + 4] == FloatBytes(fs[i])
  {
    var rest := ToBytes(fs[1..]);
    if i > 0 {
      ToBytesAt(fs[1..], i - 1);
      SliceLater(FloatBytes(fs[0]), rest, 4 * (i - 1), 4);
      assert 4 + 4 * (i - 1) == 4 * i;
    } else {
      assert (FloatBytes(fs[0]) + rest)[..4] == FloatBytes(fs[0]);
    }
  }
}
