/** Matrices stored in one flat, row-major buffer that is updated in place. */
module FlatMatrix {
  import opened Fields
  import opened Vectors
  import opened RowOperations

  lemma IndexInRange(m: nat, n: nat, r: nat, c: nat)
    requires r < m && c < n
    ensures r * n + c < m * n
  {
    assert (r + 1) * n <= m * n;
  }

  lemma RowsDoNotOverlap(n: nat, r: nat, r': nat)
    ensures r < r' ==> r * n + n <= r' * n
  {
    if r < r' {
      assert (r + 1) * n <= r' * n;
    }
  }

  /** The rows held by a row-major buffer. */
  ghost function RowsOf<S>(s: seq<S>, m: nat, n: nat): (r: Mat<S>)
    requires |s| == m * n
    ensures IsMat(r, m, n)
  {
    seq(m, i requires 0 <= i < m => seq(n, j requires 0 <= j < n => (IndexInRange(m, n, i, j); s[i * n + j])))
  }

  lemma AppendRow<S>(s: seq<S>, m: nat, n: nat, row: Vec<S>)
    requires |s| == m * n && |row| == n
    ensures |s + row| == (m + 1) * n
    ensures RowsOf(s + row, m + 1, n) == RowsOf(s, m, n) + [row]
  {
    var A, B := RowsOf(s, m, n), RowsOf(s + row, m + 1, n);
    forall k | 0 <= k < m + 1 ensures B[k] == (A + [row])[k] {
      forall l | 0 <= l < n ensures B[k][l] == (A + [row])[k][l] {
        IndexInRange(m + 1, n, k, l);
        RowsDoNotOverlap(n, k, m);
        assert B[k][l] == (s + row)[k * n + l];
      }
    }
  }

  /** Replacing the entries of one row of the buffer replaces that row. */
  lemma ReplaceRow<S>(s: seq<S>, t: seq<S>, m: nat, n: nat, i: nat, row: Vec<S>)
    requires |s| == |t| == m * n && i < m && |row| == n && i * n + n <= m * n
    requires forall k :: 0 <= k < i * n || i * n + n <= k < |s| ==> t[k] == s[k]
    requires forall k :: i * n <= k < i * n + n ==> t[k] == row[k - i * n]
    ensures RowsOf(t, m, n) == RowsOf(s, m, n)[i := row]
  {
    var A, B := RowsOf(s, m, n), RowsOf(t, m, n);
    forall k | 0 <= k < m ensures B[k] == A[i := row][k] {
      forall l | 0 <= l < n ensures B[k][l] == A[i := row][k][l] {
        IndexInRange(m, n, k, l);
        RowsDoNotOverlap(n, k, i);
        RowsDoNotOverlap(n, i, k);
        assert B[k][l] == t[k * n + l] && A[k][l] == s[k * n + l];
      }
    }
  }

  /** t is s with the stretches of n entries at a and b swapped. */
  ghost predicate Swapped<S>(s: seq<S>, t: seq<S>, a: nat, b: nat, n: nat) {
    && |t| == |s| && a + n <= |s| && b + n <= |s|
    && (forall k :: 0 <= k < |s| && !(a <= k < a + n) && !(b <= k < b + n) ==> t[k] == s[k])
    && (forall k :: a <= k < a + n ==> t[k] == s[k - a + b])
    && (forall k :: b <= k < b + n ==> t[k] == s[k - b + a])
  }

  /** t is s with x times the stretch of n entries at b subtracted from the stretch at a. */
  ghost predicate Subtracted<S(!new)>(F: Field<S>, s: seq<S>, t: seq<S>, a: nat, b: nat, n: nat, x: S) {
    && |t| == |s| && a + n <= |s| && b + n <= |s|
    && (forall k :: 0 <= k < |s| && !(a <= k < a + n) ==> t[k] == s[k])
    && (forall k :: a <= k < a + n ==> t[k] == F.Sub(s[k], F.mul(x, s[k - a + b])))
  }

  /** Where the stretch at c of the buffer comes from. */
  lemma SwappedStretch<S>(s: seq<S>, t: seq<S>, a: nat, b: nat, n: nat, c: nat)
    requires Swapped(s, t, a, b, n) && c + n <= |s|
    requires c == a || c == b || ((c + n <= a || a + n <= c) && (c + n <= b || b + n <= c))
    ensures t[c..c + n] == if c == a then s[b..b + n] else if c == b then s[a..a + n] else s[c..c + n]
  {
  }

  lemma RowStretch<S>(s: seq<S>, m: nat, n: nat, r: nat)
    requires |s| == m * n && r < m
    ensures r * n + n <= |s| && RowsOf(s, m, n)[r] == s[r * n..r * n + n]
  {
    RowsDoNotOverlap(n, r, m);
  }

  lemma SwappedRow<S>(s: seq<S>, t: seq<S>, m: nat, n: nat, i: nat, j: nat, k: nat)
    requires |s| == |t| == m * n && i < m && j < m && k < m && Swapped(s, t, i * n, j * n, n)
    ensures RowsOf(t, m, n)[k] == RowsOf(s, m, n)[if k == i then j else if k == j then i else k]
  {
    hide Swapped, RowsOf;
    RowStretch(t, m, n, k);
    RowStretch(s, m, n, i);
    RowStretch(s, m, n, j);
    RowStretch(s, m, n, k);
    RowsDoNotOverlap(n, k, i);
    RowsDoNotOverlap(n, i, k);
    RowsDoNotOverlap(n, k, j);
    RowsDoNotOverlap(n, j, k);
    SwappedStretch(s, t, i * n, j * n, n, k * n);
  }

  lemma SwappedRows<S>(s: seq<S>, t: seq<S>, m: nat, n: nat, i: nat, j: nat)
    requires |s| == |t| == m * n && i < m && j < m && Swapped(s, t, i * n, j * n, n)
    ensures RowsOf(t, m, n) == SwapRows(RowsOf(s, m, n), i, j)
  {
    hide Swapped, RowsOf;
    forall k | 0 <= k < m ensures RowsOf(t, m, n)[k] == SwapRows(RowsOf(s, m, n), i, j)[k] {
      SwappedRow(s, t, m, n, i, j, k);
    }
  }

  lemma SubtractedRow<S(!new)>(F: Field<S>, s: seq<S>, t: seq<S>, m: nat, n: nat, i: nat, p: nat, x: S)
    requires F.Lawful() && |s| == |t| == m * n && i < m && p < m && Subtracted(F, s, t, i * n, p * n, n, x)
    ensures var A := RowsOf(s, m, n); RowsOf(t, m, n) == A[i := AddScaled(F, A[i], F.neg(x), A[p])]
  {
    var A := RowsOf(s, m, n);
    var row := AddScaled(F, A[i], F.neg(x), A[p]);
    forall k | i * n <= k < i * n + n ensures t[k] == row[k - i * n] {
      F.SubMul(s[k], x, s[k - i * n + p * n]);
    }
    ReplaceRow(s, t, m, n, i, row);
  }

  /** Swaps the stretches of n entries that start at a and b. */
  method SwapStretch<S>(v: array<S>, a: nat, b: nat, n: nat)
    requires a == b <= b + n <= v.Length || a + n <= b <= b + n <= v.Length || b + n <= a <= a + n <= v.Length
    modifies v
    ensures Swapped(old(v[..]), v[..], a, b, n)
  {
    for c := 0 to n
      invariant forall k :: 0 <= k < v.Length && !(a <= k < a + c) && !(b <= k < b + c) ==> v[k] == old(v[k])
      invariant forall k :: a <= k < a + c ==> v[k] == old(v[..])[k - a + b]
      invariant forall k :: b <= k < b + c ==> v[k] == old(v[..])[k - b + a]
    {
      v[a + c], v[b + c] := v[b + c], v[a + c];
    }
  }

  /** Multiplies the stretch of n entries that starts at a by x. */
  method ScaleStretch<S(!new)>(F: Field<S>, v: array<S>, a: nat, n: nat, x: S)
    requires a + n <= v.Length
    modifies v
    ensures forall k :: 0 <= k < v.Length ==> v[k] == if a <= k < a + n then F.mul(old(v[k]), x) else old(v[k])
  {
    for j := 0 to n
      invariant forall k :: 0 <= k < v.Length ==> v[k] == if a <= k < a + j then F.mul(old(v[k]), x) else old(v[k])
    {
      v[a + j] := F.mul(v[a + j], x);
    }
  }

  /** Subtracts x times the stretch of n entries at b from the stretch at a. */
  method SubtractStretch<S(!new)>(F: Field<S>, v: array<S>, a: nat, b: nat, n: nat, x: S)
    requires a + n <= b <= b + n <= v.Length || b + n <= a <= a + n <= v.Length
    modifies v
    ensures Subtracted(F, old(v[..]), v[..], a, b, n, x)
  {
    for j := 0 to n
      invariant forall k :: 0 <= k < v.Length && !(a <= k < a + j) ==> v[k] == old(v[k])
      invariant forall k :: a <= k < a + j ==> v[k] == F.Sub(old(v[k]), F.mul(x, old(v[..])[k - a + b]))
    {
      v[a + j] := F.Sub(v[a + j], F.mul(x, v[b + j]));
    }
  }

  class Matrix<S(==, !new)> {
    const m: nat
    const n: nat
    const v: array<S>

    ghost predicate Valid() {
      v.Length == m * n
    }

    ghost function Rows(): (r: Mat<S>)
      requires Valid()
      reads v
      ensures IsMat(r, m, n)
    {
      RowsOf(v[..], m, n)
    }

    /** A matrix over the given row-major entries. */
    constructor (rows: nat, cols: nat, entries: seq<S>)
      requires |entries| == rows * cols
      ensures m == rows && n == cols && Valid() && fresh(v) && v[..] == entries
    {
      m, n := rows, cols;
      v := new S[|entries|](i requires 0 <= i < |entries| => entries[i]);
    }

    function Get(r: nat, c: nat): (x: S)
      requires Valid() && r < m && c < n
      reads v
      ensures x == Rows()[r][c]
    {
      IndexInRange(m, n, r, c);
      v[r * n + c]
    }

    /** Row r, copied out of the buffer. */
    method CopyRow(r: nat) returns (row: seq<S>)
      requires Valid() && r < m
      ensures row == Rows()[r]
    {
      RowsDoNotOverlap(n, r, m);
      row := v[r * n..r * n + n];
    }

    /** Column c, copied out of the buffer. */
    method CopyColumn(c: nat) returns (col: seq<S>)
      requires Valid() && c < n
      ensures col == Column(Rows(), m, n, c)
    {
      col := [];
      for i := 0 to m
        invariant col == Column(Rows(), m, n, c)[..i]
      {
        col := col + [Get(i, c)];
      }
    }

    method SwapRowAssign(i: nat, j: nat)
      requires Valid() && i < m && j < m
      modifies v
      ensures Rows() == SwapRows(old(Rows()), i, j)
    {
      RowsDoNotOverlap(n, i, m);
      RowsDoNotOverlap(n, j, m);
      RowsDoNotOverlap(n, i, j);
      RowsDoNotOverlap(n, j, i);
      ghost var s := v[..];
      SwapStretch(v, i * n, j * n, n);
      SwappedRows(s, v[..], m, n, i, j);
    }

    /** Multiplies row i by c. */
    method ScaleRowAssign(F: Field<S>, i: nat, c: S)
      requires F.Lawful() && Valid() && i < m
      modifies v
      ensures Rows() == ScaleRow(F, old(Rows()), i, c)
    {
      RowsDoNotOverlap(n, i, m);
      ghost var s := v[..];
      ghost var row := Scale(F, c, Rows()[i]);
      ScaleStretch(F, v, i * n, n, c);
      forall k | i * n <= k < i * n + n ensures v[k] == row[k - i * n] {
        assert F.MulComm(s[k], c);
      }
      ReplaceRow(s, v[..], m, n, i, row);
    }

    /** Subtracts factor times row p from row i. */
    method SubtractRowAssign(F: Field<S>, i: nat, p: nat, factor: S)
      requires F.Lawful() && Valid() && i < m && p < m && i != p
      modifies v
      ensures Rows() == old(Rows())[i := AddScaled(F, old(Rows())[i], F.neg(factor), old(Rows())[p])]
    {
      RowsDoNotOverlap(n, i, m);
      RowsDoNotOverlap(n, p, m);
      RowsDoNotOverlap(n, i, p);
      RowsDoNotOverlap(n, p, i);
      ghost var s := v[..];
      SubtractStretch(F, v, i * n, p * n, n, factor);
      SubtractedRow(F, s, v[..], m, n, i, p, factor);
    }
  }
}
