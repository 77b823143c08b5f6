/**
 * A parsed table as the scraper sees it once pandas has read it: column
 * labels and rows of cell strings.  Cell values are kept as the strings
 * `str(value)` gives (a missing cell reads "nan").
 */
module Frames {
  import opened Wrappers
  import opened Text

  /** A pandas column label: a string, the integer position read_html gives a
      header-less column, or the tuple of a multi-level header. */
  datatype Label = Name(text: string) | Position(index: nat) | Levels(parts: seq<string>)

  datatype Frame = Frame(labels: seq<Label>, rows: seq<seq<string>>)

  /** Every row has one cell per column, as in any DataFrame. */
  predicate Rectangular(f: Frame) {
    forall i :: 0 <= i < |f.rows| ==> |f.rows[i]| == |f.labels|
  }

  type Table = f: Frame | Rectangular(f) witness Frame([], [])

  function Quoted(parts: seq<string>): string {
    if |parts| == 0 then ""
    else if |parts| == 1 then "'" + parts[0] + "'"
    else "'" + parts[0] + "', " + Quoted(parts[1..])
  }

  /** str(label).  A tuple prints in parentheses (string escaping is not modelled). */
  function Str(l: Label): (s: string)
    ensures l.Levels? ==> |s| > 0 && s[0] == '('
    ensures l.Position? ==> IsDigits(s)
  {
    match l
    case Name(t) => t
    case Position(n) => NatToString(n)
    case Levels(parts) => "(" + Quoted(parts) + (if |parts| == 1 then "," else "") + ")"
  }

  /** The column labels all named by strings. */
  predicate AllNamed(labels: seq<Label>) {
    forall j :: 0 <= j < |labels| ==> labels[j].Name?
  }

  function Names(labels: seq<Label>): (r: seq<string>)
    requires AllNamed(labels)
    ensures |r| == |labels|
    ensures forall j :: 0 <= j < |labels| ==> labels[j] == Name(r[j])
  {
    seq(|labels|, j requires 0 <= j < |labels| => labels[j].text)
  }

  function Named(names: seq<string>): (r: seq<Label>)
    ensures |r| == |names| && AllNamed(r) && Names(r) == names
  {
    seq(|names|, j requires 0 <= j < |names| => Name(names[j]))
  }

  /** Python's next(i for i, x in enumerate(s) if p(x)), None when no element qualifies. */
  function FirstIndex<T>(s: seq<T>, p: T -> bool): (r: Option<nat>)
    ensures r.Some? ==> r.value < |s| && p(s[r.value]) && forall k :: 0 <= k < r.value ==> !p(s[k])
    ensures r.None? ==> forall k :: 0 <= k < |s| ==> !p(s[k])
  {
    if |s| == 0 then None
    else if p(s[0]) then Some(0)
    else match FirstIndex(s[1..], p)
      case None => None
      case Some(k) => Some(k + 1)
  }

  /** A scan that has rejected s[..i] and now rejects s[i] has rejected s[..i + 1]. */
  lemma NoneUpTo<T>(s: seq<T>, i: nat, p: T -> bool)
    requires i < |s| && !p(s[i])
    requires forall k :: 0 <= k < i ==> !p(s[k])
    ensures forall k :: 0 <= k < i + 1 ==> !p(s[k])
  {
  }

  /** The first element satisfying p is the one a left-to-right scan stops at. */
  lemma {:induction false} FirstIndexAt<T>(s: seq<T>, i: nat, p: T -> bool)
    requires i < |s| && p(s[i])
    requires forall k :: 0 <= k < i ==> !p(s[k])
    ensures FirstIndex(s, p) == Some(i)
  {
    if i > 0 {
      assert !p(s[0]);
      FirstIndexAt(s[1..], i - 1, p);
    }
  }

  /** The column at position j, as a sequence of cells. */
  function Column(t: Table, j: nat): (c: seq<string>)
    requires j < |t.labels|
    ensures |c| == |t.rows|
    ensures forall i :: 0 <= i < |t.rows| ==> c[i] == t.rows[i][j]
  {
    seq(|t.rows|, i requires 0 <= i < |t.rows| => t.rows[i][j])
  }

  /** Keep only columns j and k, in that order: frame[[a, b]]. */
  function Pick(rows: seq<seq<string>>, width: nat, j: nat, k: nat): (r: seq<seq<string>>)
    requires j < width && k < width
    requires forall row <- rows :: |row| == width
    ensures |r| == |rows|
    ensures forall i :: 0 <= i < |rows| ==> r[i] == [rows[i][j], rows[i][k]]
  {
    seq(|rows|, i requires 0 <= i < |rows| => [rows[i][j], rows[i][k]])
  }

  /** frame[mask]: the elements satisfying p, in their original order. */
  function Filter<T>(s: seq<T>, p: T -> bool): (r: seq<T>)
    ensures |r| <= |s|
    ensures forall x <- r :: x in s && p(x)
    ensures forall x <- s :: p(x) ==> x in r
  {
    if |s| == 0 then [] else (if p(s[0]) then [s[0]] else []) + Filter(s[1..], p)
  }

  /** Filtering distributes over concatenation, so the relative order of survivors is kept. */
  lemma {:induction false} FilterConcat<T>(a: seq<T>, b: seq<T>, p: T -> bool)
    ensures Filter(a + b, p) == Filter(a, p) + Filter(b, p)
  {
    if |a| > 0 {
      assert (a + b)[1..] == a[1..] + b;
      FilterConcat(a[1..], b, p);
    } else {
      assert a + b == b;
    }
  }

  /** Filtering twice with the same mask is filtering once. */
  lemma {:induction false} FilterIdempotent<T>(s: seq<T>, p: T -> bool)
    ensures Filter(Filter(s, p), p) == Filter(s, p)
  {
    if |s| > 0 {
      FilterIdempotent(s[1..], p);
      if p(s[0]) {
        var t := Filter(s, p);
        assert t[0] == s[0] && t[1..] == Filter(s[1..], p);
        assert Filter(t, p) == [t[0]] + Filter(t[1..], p);
      } else {
        assert Filter(s, p) == Filter(s[1..], p);
      }
    }
  }
}
