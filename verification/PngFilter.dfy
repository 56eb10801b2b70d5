/**
 Reading screenshots (scripts/docs_screenshot_inventory.py): undoing the PNG row filters in place,
 with the previous row carried from row to row, and yielding the pixels.  The filters themselves
 are those of section 6 of RFC 2083; decompression happens before.
 */
module PngFilter {
  type Byte = x: int | 0 <= x < 256

  function Distance(a: int, b: int): nat {
    if a < b then b - a else a - b
  }

  /** The neighbour nearest to left + up - upperLeft; ties go to left, then to up. */
  function Paeth(left: Byte, up: Byte, upperLeft: Byte): (r: Byte)
    ensures var p := left + up - upperLeft;
            && r in {left, up, upperLeft}
            && Distance(p, r) <= Distance(p, left) && Distance(p, r) <= Distance(p, up)
            && Distance(p, r) <= Distance(p, upperLeft)
            && (Distance(p, left) == Distance(p, r) ==> r == left)
            && (Distance(p, up) == Distance(p, r) ==> r == left || r == up)
  {
    var estimate := left + up - upperLeft;
    if Distance(estimate, left) <= Distance(estimate, up)
        && Distance(estimate, left) <= Distance(estimate, upperLeft) then left
    else if Distance(estimate, up) <= Distance(estimate, upperLeft) then up
    else upperLeft
  }

  /** What filter `kind` predicts from the three neighbours. */
  function Predicted(kind: Byte, left: Byte, up: Byte, upperLeft: Byte): Byte {
    if kind == 1 then left
    else if kind == 2 then up
    else if kind == 3 then (left + up) / 2
    else if kind == 4 then Paeth(left, up, upperLeft)
    else 0
  }

  /** The byte one pixel to the left of position i, 0 outside the row. */
  function LeftOf(row: seq<Byte>, i: nat, bpp: nat): Byte
    requires i < |row| && bpp > 0
  {
    if i >= bpp then row[i - bpp] else 0
  }

  function FilterByte(kind: Byte, row: seq<Byte>, previous: seq<Byte>, bpp: nat, i: nat): Byte
    requires i < |row| == |previous| && bpp > 0
  {
    (row[i] - Predicted(kind, LeftOf(row, i, bpp), previous[i], LeftOf(previous, i, bpp))) % 256
  }

  /** The encoder's side: every byte minus its prediction from the original row, modulo 256. */
  function FilterRow(kind: Byte, row: seq<Byte>, previous: seq<Byte>, bpp: nat): (r: seq<Byte>)
    requires |row| == |previous| && bpp > 0
    ensures |r| == |row|
  {
    seq(|row|, i requires 0 <= i < |row| => FilterByte(kind, row, previous, bpp, i))
  }

  /** The five filters by their equations in sections 6.2 to 6.6 of RFC 2083, bytes outside the row being zero. */
  lemma StandardFilters(row: seq<Byte>, previous: seq<Byte>, bpp: nat, i: nat)
    requires i < |row| == |previous| && bpp > 0
    ensures var x: int := row[i];
            var left: int := if i < bpp then 0 else row[i - bpp];
            var above: int := previous[i];
            var corner: int := if i < bpp then 0 else previous[i - bpp];
            && FilterByte(0, row, previous, bpp, i) == row[i]
            && FilterByte(1, row, previous, bpp, i) == (x - left) % 256
            && FilterByte(2, row, previous, bpp, i) == (x - above) % 256
            && FilterByte(3, row, previous, bpp, i) == (x - (left + above) / 2) % 256
            && FilterByte(4, row, previous, bpp, i) == (x - Paeth(left, above, corner)) % 256
  {
  }

  lemma Recovered(value: Byte, predicted: Byte, original: Byte)
    requires value == (original - predicted) % 256
    ensures (value + predicted) % 256 == original
  {
  }

  lemma Reduced(value: Byte, predicted: Byte)
    ensures ((value + predicted) % 256 - predicted) % 256 == value
  {
  }

  lemma {:induction false} SamePrefix(kind: Byte, a: seq<Byte>, b: seq<Byte>, previous: seq<Byte>, bpp: nat, n: nat)
    requires |a| == |b| == |previous| && bpp > 0 && n <= |a|
    requires FilterRow(kind, a, previous, bpp) == FilterRow(kind, b, previous, bpp)
    ensures a[..n] == b[..n]
  {
    if n > 0 {
      var i := n - 1;
      SamePrefix(kind, a, b, previous, bpp, i);
      assert a[..n] == a[..i] + [a[i]] && b[..n] == b[..i] + [b[i]];
      assert LeftOf(a, i, bpp) == LeftOf(b, i, bpp) by {
        if i >= bpp { assert a[i - bpp] == a[..i][i - bpp] == b[..i][i - bpp]; }
      }
      var p := Predicted(kind, LeftOf(a, i, bpp), previous[i], LeftOf(previous, i, bpp));
      var value := FilterRow(kind, a, previous, bpp)[i];
      assert value == FilterRow(kind, b, previous, bpp)[i];
      Recovered(value, p, a[i]);
      Recovered(value, p, b[i]);
    }
  }

  /** A filtered row determines the row it came from. */
  lemma FilterRowInjective(kind: Byte, a: seq<Byte>, b: seq<Byte>, previous: seq<Byte>, bpp: nat)
    requires |a| == |b| == |previous| && bpp > 0
    requires FilterRow(kind, a, previous, bpp) == FilterRow(kind, b, previous, bpp)
    ensures a == b
  {
    SamePrefix(kind, a, b, previous, bpp, |a|);
    assert a[..|a|] == a && b[..|b|] == b;
  }

  /** Writing position i leaves the filtered values before it, which depend on earlier bytes only. */
  lemma EarlierStay(kind: Byte, row: seq<Byte>, previous: seq<Byte>, bpp: nat, i: nat, x: Byte)
    requires i < |row| == |previous| && bpp > 0
    ensures forall j | 0 <= j < i ::
              FilterByte(kind, row[i := x], previous, bpp, j) == FilterByte(kind, row, previous, bpp, j)
  {
  }

  /** The first n bytes of the row filter to the first n bytes read. */
  ghost predicate Undone(kind: Byte, row: seq<Byte>, previous: seq<Byte>, bpp: nat, filtered: seq<Byte>, n: nat)
    requires n <= |row| == |previous| == |filtered| && bpp > 0
  {
    forall j | 0 <= j < n :: FilterByte(kind, row, previous, bpp, j) == filtered[j]
  }

  lemma UndoneNext(kind: Byte, row: seq<Byte>, previous: seq<Byte>, bpp: nat, filtered: seq<Byte>, i: nat, x: Byte)
    requires i < |row| == |previous| == |filtered| && bpp > 0
    requires Undone(kind, row, previous, bpp, filtered, i)
    requires x == (filtered[i] + Predicted(kind, LeftOf(row, i, bpp), previous[i], LeftOf(previous, i, bpp))) % 256
    ensures Undone(kind, row[i := x], previous, bpp, filtered, i + 1)
  {
    EarlierStay(kind, row, previous, bpp, i, x);
    Reduced(filtered[i], Predicted(kind, LeftOf(row, i, bpp), previous[i], LeftOf(previous, i, bpp)));
  }

  lemma UndoneAll(kind: Byte, row: seq<Byte>, previous: seq<Byte>, bpp: nat, filtered: seq<Byte>)
    requires |row| == |previous| == |filtered| && bpp > 0 && Undone(kind, row, previous, bpp, filtered, |row|)
    ensures FilterRow(kind, row, previous, bpp) == filtered
  {
  }

  /** unfilter_row: a row that filters to these bytes, or an error for an unknown filter. */
  method UnfilterRow(kind: Byte, filtered: seq<Byte>, previous: array<Byte>, bpp: nat)
    returns (ok: bool, row: array<Byte>)
    requires previous.Length == |filtered| && bpp > 0
    ensures fresh(row) && row.Length == |filtered|
    ensures ok <==> kind <= 4 || filtered == []
    ensures ok ==> FilterRow(kind, row[..], previous[..], bpp) == filtered
  {
    row := new Byte[|filtered|](i requires 0 <= i < |filtered| => filtered[i]);
    for i := 0 to |filtered|
      invariant i > 0 ==> kind <= 4
      invariant Undone(kind, row[..], previous[..], bpp, filtered, i)
    {
      var left: Byte := if i >= bpp then row[i - bpp] else 0;
      var up := previous[i];
      var upperLeft: Byte := if i >= bpp then previous[i - bpp] else 0;
      if kind > 4 {
        return false, row;
      }
      var recon := Reconstruct(kind, filtered[i], left, up, upperLeft);
      UndoneNext(kind, row[..], previous[..], bpp, filtered, i, recon % 256);
      ghost var next := row[..][i := recon % 256];
      row[i] := recon % 256;
      assert row[..] == next;
    }
    ok := true;
    UndoneAll(kind, row[..], previous[..], bpp, filtered);
  }

  method Reconstruct(kind: Byte, value: Byte, left: Byte, up: Byte, upperLeft: Byte) returns (recon: nat)
    requires kind <= 4
    ensures recon == value + Predicted(kind, left, up, upperLeft)
  {
    if kind == 0 {
      recon := value;
    } else if kind == 1 {
      recon := value + left;
    } else if kind == 2 {
      recon := value + up;
    } else if kind == 3 {
      recon := value + (left + up) / 2;
    } else {
      recon := value + Paeth(left, up, upperLeft);
    }
  }
}
