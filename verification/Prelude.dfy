/** Datatypes and string helpers shared by every component. */
module Prelude {
  datatype Option<+T> = None | Some(value: T)

  datatype Result<+T, +E> = Success(value: T) | Failure(error: E)

  /** One octet of a wire format. */
  type Byte = x: int | 0 <= x < 256

  type Bytes = seq<Byte>

  /** All the parts of a list of byte strings, one after the other. */
  function Concat(parts: seq<Bytes>): (r: Bytes) {
    if parts == [] then [] else parts[0] + Concat(parts[1..])
  }

  lemma {:induction false} ConcatAppend(a: seq<Bytes>, b: seq<Bytes>)
    ensures Concat(a + b) == Concat(a) + Concat(b)
  {
    if a == [] {
      assert a + b == b;
    } else {
      var rest := a[1..];
      assert (a + b)[0] == a[0] && (a + b)[1..] == rest + b;
      assert Concat(a + b) == a[0] + Concat(rest + b);
      ConcatAppend(rest, b);
      assert a[0] + (Concat(rest) + Concat(b)) == Concat(a) + Concat(b);
    }
  }

  lemma ConcatSnoc(a: seq<Bytes>, x: Bytes)
    ensures Concat(a + [x]) == Concat(a) + x
  {
    ConcatAppend(a, [x]);
    assert [x][1..] == [];
  }

  /** A result list of a query, or the elements of a set, in an order nobody promises. */
  method AnyOrder<T(==)>(items: set<T>) returns (rows: seq<T>)
    ensures forall x :: x in rows <==> x in items
    ensures forall i, j :: 0 <= i < j < |rows| ==> rows[i] != rows[j]
  {
    rows := [];
    var left := items;
    while exists x :: x in left
      invariant left <= items
      invariant forall x :: x in rows <==> x in items && x !in left
      invariant forall i, j :: 0 <= i < j < |rows| ==> rows[i] != rows[j]
      decreases left
    {
      var x :| x in left;
      rows, left := rows + [x], left - {x};
    }
  }

  /** The characters that str.strip() removes (those for which str.isspace() holds). */
  predicate IsSpace(c: char) {
    || '\t' <= c <= '\r'
    || '\U{1c}' <= c <= ' '
    || c == '\U{85}' || c == '\U{a0}' || c == '\U{1680}'
    || '\U{2000}' <= c <= '\U{200a}'
    || c == '\U{2028}' || c == '\U{2029}' || c == '\U{202f}' || c == '\U{205f}' || c == '\U{3000}'
  }

  function StripLeft(s: string): (r: string) {
    if s != [] && IsSpace(s[0]) then StripLeft(s[1..]) else s
  }

  function StripRight(s: string): (r: string) {
    if s != [] && IsSpace(s[|s| - 1]) then StripRight(s[..|s| - 1]) else s
  }

  function Strip(s: string): (r: string) {
    StripRight(StripLeft(s))
  }

  /** No white space at either end. */
  predicate Trimmed(s: string) {
    s == [] || (!IsSpace(s[0]) && !IsSpace(s[|s| - 1]))
  }

  lemma {:induction false} StripLeftTrims(s: string)
    ensures var r := StripLeft(s); (r == [] || !IsSpace(r[0])) && |r| <= |s| && (|r| == |s| ==> r == s)
  {
    if s != [] && IsSpace(s[0]) { StripLeftTrims(s[1..]); }
  }

  lemma {:induction false} StripRightTrims(s: string)
    ensures var r := StripRight(s); (r == [] || !IsSpace(r[|r| - 1])) && r <= s
  {
    if s != [] && IsSpace(s[|s| - 1]) { StripRightTrims(s[..|s| - 1]); }
  }

  lemma StripTrims(s: string)
    ensures Trimmed(Strip(s))
    ensures Strip(s) == s <==> Trimmed(s)
    ensures Strip(Strip(s)) == Strip(s)
  {
    var l := StripLeft(s);
    StripLeftTrims(s);
    StripRightTrims(l);
    var r := StripRight(l);
    assert r != [] ==> r[0] == l[0];
    assert |r| == |s| ==> |l| == |s| && l == s && r == l;
  }

  lemma {:induction false} StripLeftBlank(s: string)
    ensures StripLeft(s) == [] <==> forall c :: c in s ==> IsSpace(c)
  {
    if s != [] && IsSpace(s[0]) { StripLeftBlank(s[1..]); }
  }

  /** Only blank strings strip to nothing. */
  lemma StripBlank(s: string)
    ensures Strip(s) == [] <==> forall c :: c in s ==> IsSpace(c)
  {
    StripLeftBlank(s);
    StripLeftTrims(s);
    StripFrontStays(StripLeft(s));
  }

  lemma {:induction false} StripFrontStays(s: string)
    requires s != [] ==> !IsSpace(s[0])
    ensures s != [] ==> StripRight(s) != []
  {
    if |s| > 1 { StripFrontStays(s[..|s| - 1]); }
  }
}
