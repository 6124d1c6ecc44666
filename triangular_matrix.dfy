/** Triangular matrix views (include/slate/TriangularMatrix.hh): the block
    ranges chosen by the constructors that build or convert to a
    TriangularMatrix, by its two `sub` methods, and the `swap` of two
    matrices.

    A view is a window onto a parent's tile storage: the block rows and
    block columns it covers are spans in the storage's own block
    coordinates, so tile (i, j) of a view is storage tile
    (rows.first + i, cols.first + j). Views made from a view share its
    storage (they are shallow copies). */
module TriangularViews {
  import opened SlateTypes

  /** The inclusive block range first .. last; empty when last < first. */
  datatype Span = Span(first: int, last: int) {
    function Count(): nat {
      if last < first then 0 else last - first + 1
    }

    predicate Contains(i: int) {
      first <= i <= last
    }
  }

  /** The matrix classes a view can belong to. Every class except General
      derives from BaseTrapezoidMatrix. */
  datatype Shape = General | Trapezoid | Triangular | Symmetric | Hermitian

  datatype View = View(shape: Shape, uplo: Uplo, diag: Diag, rows: Span, cols: Span, storage: nat) {
    /** Number of block rows. */
    function Mt(): nat {
      rows.Count()
    }

    /** Number of block columns. */
    function Nt(): nat {
      cols.Count()
    }
  }

  /** The storage tile behind tile (i, j) of view v. */
  function TileOf(v: View, i: int, j: int): (int, int) {
    (v.rows.first + i, v.cols.first + j)
  }

  /** The block-index preconditions documented for every ranged
      constructor and for `sub`: 0 <= i1 < mt, i2 < mt, 0 <= j1 < nt,
      j2 < nt. */
  predicate InRange(v: View, i1: int, i2: int, j1: int, j2: int) {
    0 <= i1 < v.Mt() && i2 < v.Mt() && 0 <= j1 < v.Nt() && j2 < v.Nt()
  }

  /** The window v[i1:i2, j1:j2] (bounds inclusive) as a view of the given
      shape, triangle and diagonal, on v's storage. This is the range
      selection all of the sub-matrix constructors forward to. */
  function Window(v: View, shape: Shape, uplo: Uplo, diag: Diag, i1: int, i2: int, j1: int, j2: int): (w: View)
    requires InRange(v, i1, i2, j1, j2)
    ensures w.shape == shape && w.uplo == uplo && w.diag == diag && w.storage == v.storage
    ensures w.Mt() == (if i2 < i1 then 0 else i2 - i1 + 1)
    ensures w.Nt() == (if j2 < j1 then 0 else j2 - j1 + 1)
    ensures forall i, j :: 0 <= i < w.Mt() && 0 <= j < w.Nt() ==> TileOf(w, i, j) == TileOf(v, i1 + i, j1 + j)
    ensures w.Mt() > 0 ==> v.rows.Contains(w.rows.first) && v.rows.Contains(w.rows.last)
    ensures w.Nt() > 0 ==> v.cols.Contains(w.cols.first) && v.cols.Contains(w.cols.last)
  {
    View(shape, uplo, diag,
         Span(v.rows.first + i1, v.rows.first + i2),
         Span(v.cols.first + j1, v.cols.first + j2),
         v.storage)
  }

  // ---------------------------------------------------------------------
  // Constructors of new matrices

  /** The element and tile dimensions a matrix is created with. */
  datatype Dims = Dims(m: nat, n: nat, mb: nat, nb: nat)

  /** `TriangularMatrix(uplo, diag, n, nb, p, q, comm)` and fromLAPACK:
      passes n for both dimensions and nb for the tile size. */
  function NewTriangular(n: nat, nb: nat): (d: Dims)
    ensures d.m == n && d.n == n && d.mb == nb && d.nb == nb
  {
    Dims(n, n, nb, nb)
  }

  /** fromScaLAPACK: forwards nb twice, as the row and the column tile size. */
  function FromScaLAPACK(n: nat, nb: nat): (d: Dims)
    ensures d.m == d.n == n && d.mb == d.nb == nb
  {
    Dims(n, n, nb, nb)
  }

  /** Number of tiles needed to cover `len` elements with tiles of `size`. */
  function Tiles(len: nat, size: nat): (t: nat)
    requires size >= 1
    ensures (t - 1) * size < len <= t * size || (len == 0 && t == 0)
  {
    (len + size - 1) / size
  }

  /** A freshly created n-by-n triangular matrix covers its whole storage,
      and the same number of block rows as block columns. */
  function Created(uplo: Uplo, diag: Diag, d: Dims, storage: nat): (v: View)
    requires d.mb >= 1 && d.nb >= 1
    ensures v.shape == Triangular && v.uplo == uplo && v.diag == diag && v.storage == storage
    ensures v.rows.first == 0 && v.cols.first == 0
    ensures v.Mt() == Tiles(d.m, d.mb) && v.Nt() == Tiles(d.n, d.nb)
  {
    View(Triangular, uplo, diag, Span(0, Tiles(d.m, d.mb) - 1), Span(0, Tiles(d.n, d.nb) - 1), storage)
  }

  lemma CreatedIsSquare(uplo: Uplo, diag: Diag, n: nat, nb: nat, storage: nat)
    requires nb >= 1
    ensures Created(uplo, diag, NewTriangular(n, nb), storage).Mt() == Created(uplo, diag, NewTriangular(n, nb), storage).Nt()
    ensures Created(uplo, diag, FromScaLAPACK(n, nb), storage) == Created(uplo, diag, NewTriangular(n, nb), storage)
  {
  }

  // ---------------------------------------------------------------------
  // Conversions

  /** The square part 0 .. min(mt, nt) - 1 used by the conversions without
      explicit ranges. */
  function SquareLast(orig: View): int {
    Min(orig.Mt() - 1, orig.Nt() - 1)
  }

  /** `TriangularMatrix(diag, BaseTrapezoidMatrix& orig)`: keeps the
      original's triangle, uses only its square part. */
  function FromTrapezoid(diag: Diag, orig: View): (v: View)
    requires orig.shape != General
    ensures v.shape == Triangular && v.uplo == orig.uplo && v.diag == diag && v.storage == orig.storage
    ensures v.Mt() == v.Nt() == Min(orig.Mt(), orig.Nt())
    ensures v.rows.first == orig.rows.first && v.cols.first == orig.cols.first
  {
    if orig.Mt() == 0 || orig.Nt() == 0 then
      View(Triangular, orig.uplo, diag, Span(orig.rows.first, orig.rows.first - 1),
           Span(orig.cols.first, orig.cols.first - 1), orig.storage)
    else
      Window(orig, Triangular, orig.uplo, diag, 0, SquareLast(orig), 0, SquareLast(orig))
  }

  /** `TriangularMatrix(uplo, diag, Matrix& orig)`: like FromTrapezoid, with
      the triangle given by the caller. */
  function FromGeneral(uplo: Uplo, diag: Diag, orig: View): (v: View)
    requires orig.shape == General
    ensures v.shape == Triangular && v.uplo == uplo && v.diag == diag && v.storage == orig.storage
    ensures v.Mt() == v.Nt() == Min(orig.Mt(), orig.Nt())
    ensures v.rows.first == orig.rows.first && v.cols.first == orig.cols.first
  {
    if orig.Mt() == 0 || orig.Nt() == 0 then
      View(Triangular, uplo, diag, Span(orig.rows.first, orig.rows.first - 1),
           Span(orig.cols.first, orig.cols.first - 1), orig.storage)
    else
      Window(orig, Triangular, uplo, diag, 0, SquareLast(orig), 0, SquareLast(orig))
  }

  /** The ranged conversions throw std::runtime_error with this message
      unless the ranges have the same length. */
  function SquareError(from: string): string {
    "i2 - i1 != j2 - j1, " + from
  }

  /** `TriangularMatrix(diag, BaseTrapezoidMatrix& orig, i1, i2, j1, j2)`. */
  function FromTrapezoidRange(diag: Diag, orig: View, i1: int, i2: int, j1: int, j2: int): (r: Result<View, string>)
    requires orig.shape != General && InRange(orig, i1, i2, j1, j2)
    ensures r.Failure? <==> i2 - i1 != j2 - j1
    ensures r.Failure? ==> r.error == SquareError("BaseTrapezoid")
    ensures r.Success? ==> r.value == Window(orig, Triangular, orig.uplo, diag, i1, i2, j1, j2)
    ensures r.Success? ==> r.value.Mt() == r.value.Nt()
  {
    var v := Window(orig, Triangular, orig.uplo, diag, i1, i2, j1, j2);
    if i2 - i1 != j2 - j1 then Failure(SquareError("BaseTrapezoid")) else Success(v)
  }

  /** `TriangularMatrix(uplo, diag, Matrix& orig, i1, i2, j1, j2)`. */
  function FromGeneralRange(uplo: Uplo, diag: Diag, orig: View, i1: int, i2: int, j1: int, j2: int): (r: Result<View, string>)
    requires orig.shape == General && InRange(orig, i1, i2, j1, j2)
    ensures r.Failure? <==> i2 - i1 != j2 - j1
    ensures r.Failure? ==> r.error == SquareError("Matrix")
    ensures r.Success? ==> r.value == Window(orig, Triangular, uplo, diag, i1, i2, j1, j2)
    ensures r.Success? ==> r.value.Mt() == r.value.Nt()
  {
    var v := Window(orig, Triangular, uplo, diag, i1, i2, j1, j2);
    if i2 - i1 != j2 - j1 then Failure(SquareError("Matrix")) else Success(v)
  }

  /** The conversion without ranges is the ranged conversion over the
      square part, which never throws. */
  lemma WholeIsSquareRange(diag: Diag, orig: View)
    requires orig.shape != General && orig.Mt() >= 1 && orig.Nt() >= 1
    ensures InRange(orig, 0, SquareLast(orig), 0, SquareLast(orig))
    ensures FromTrapezoidRange(diag, orig, 0, SquareLast(orig), 0, SquareLast(orig)) == Success(FromTrapezoid(diag, orig))
  {
  }

  // ---------------------------------------------------------------------
  // Sub-matrices

  /** `sub(i1, i2)`: the triangular view A[i1:i2, i1:i2] with the parent's
      triangle and diagonal. */
  function Sub(v: View, i1: int, i2: int): (s: View)
    requires v.shape == Triangular && InRange(v, i1, i2, i1, i2)
    ensures s.shape == Triangular && s.uplo == v.uplo && s.diag == v.diag && s.storage == v.storage
    ensures s.Mt() == s.Nt()
    ensures forall i, j :: 0 <= i < s.Mt() && 0 <= j < s.Nt() ==> TileOf(s, i, j) == TileOf(v, i1 + i, i1 + j)
  {
    Window(v, Triangular, v.uplo, v.diag, i1, i2, i1, i2)
  }

  /** The block A[i1:i2, j1:j2] lies strictly below the diagonal for Lower
      and strictly above it for Upper; an empty block lies anywhere. */
  predicate OffDiagonal(uplo: Uplo, i1: int, i2: int, j1: int, j2: int) {
    i1 <= i2 && j1 <= j2 ==> (if uplo == Lower then j2 < i1 else i2 < j1)
  }

  /** `sub(i1, i2, j1, j2)`: a general Matrix view A[i1:i2, j1:j2] of an
      off-diagonal block of the stored triangle. */
  function SubGeneral(v: View, i1: int, i2: int, j1: int, j2: int): (s: View)
    requires v.shape == Triangular && InRange(v, i1, i2, j1, j2)
    requires OffDiagonal(v.uplo, i1, i2, j1, j2)
    ensures s.shape == General && s.storage == v.storage
    ensures s.Mt() == (if i2 < i1 then 0 else i2 - i1 + 1) && s.Nt() == (if j2 < j1 then 0 else j2 - j1 + 1)
    ensures forall i, j :: 0 <= i < s.Mt() && 0 <= j < s.Nt() ==>
              TileOf(s, i, j) == TileOf(v, i1 + i, j1 + j) &&
              (if v.uplo == Lower then i1 + i > j1 + j else i1 + i < j1 + j)
  {
    Window(v, General, v.uplo, v.diag, i1, i2, j1, j2)
  }

  /** A sub-view of a sub-view is the sub-view of the parent over the
      composed range. */
  lemma SubOfSub(v: View, i1: int, i2: int, k1: int, k2: int)
    requires v.shape == Triangular && InRange(v, i1, i2, i1, i2) && i1 <= i2
    requires InRange(Sub(v, i1, i2), k1, k2, k1, k2)
    ensures InRange(v, i1 + k1, i1 + k2, i1 + k1, i1 + k2)
    ensures Sub(Sub(v, i1, i2), k1, k2) == Sub(v, i1 + k1, i1 + k2)
  {
  }

  // ---------------------------------------------------------------------
  // swap

  /** A TriangularMatrix object: the view it presents. */
  class TriangularMatrix {
    var view: View

    constructor (v: View)
      ensures view == v
    {
      view := v;
    }
  }

  /** `swap(A, B)`: exchanges the entire contents of the two objects; a
      matrix swapped with itself is unchanged. */
  method Swap(a: TriangularMatrix, b: TriangularMatrix)
    modifies a, b
    ensures a.view == old(b.view) && b.view == old(a.view)
  {
    var t := a.view;
    a.view := b.view;
    b.view := t;
  }
}
