/** tester/casename.go: `CaseName` builds a sub-test name from its arguments
    and `toString` renders one argument through reflection. Here the
    reflected value is a datatype; the kinds `toString` tells apart are its
    constructors. */
module CaseNames {
  import opened Text

  /** A Go value as `toString` sees it.
      - `Nil`: the nil interface, a nil pointer, a nil slice or a nil map; as
        the target of a `Ptr`, only a nil pointer or a nil interface (a nil
        slice or map reached through a pointer is `List([], false)` or
        `Map([])`: `toString` walks into it and writes nothing, and a pointer
        is never zero, so its target's nil-ness is never asked);
      - `Int`: a Go `int`; `Str`: a string;
      - `Ptr`: a non-nil pointer, with `addr` the text `%v` prints for it;
      - `List`: a non-nil slice, or an array when `isArray`;
      - `Map`: a non-nil map, its entries in iteration order, each key given
        by the text `%v` prints for it;
      - `Struct`: a struct, its fields in declaration order. */
  datatype Value =
    | Nil
    | Int(n: int)
    | Str(s: string)
    | Ptr(addr: string, target: Value)
    | List(elems: seq<Value>, isArray: bool)
    | Map(entries: seq<(string, Value)>)
    | Struct(fields: seq<Field>)

  /** A struct field: whether it is exported (its `PkgPath` is empty), and its value. */
  datatype Field = Field(exported: bool, value: Value)

  /** `reflect.Value.IsZero`: nil is zero, pointers, slices and maps that are
      not nil are not, an array or a struct is zero when all its parts are. */
  predicate IsZero(v: Value) {
    match v
    case Nil => true
    case Int(n) => n == 0
    case Str(s) => s == ""
    case Ptr(_, _) => false
    case List(es, isArray) => isArray && forall i :: 0 <= i < |es| ==> IsZero(es[i])
    case Map(_) => false
    case Struct(fs) => forall i :: 0 <= i < |fs| ==> IsZero(fs[i].value)
  }

  /** The zero value of `v`'s type: a nil pointer, slice or map is `Nil`; an
      array keeps its length and a struct its fields, with every part zeroed. */
  function ZeroOf(v: Value): Value {
    match v
    case Nil => Nil
    case Int(_) => Int(0)
    case Str(_) => Str("")
    case Ptr(_, _) => Nil
    case List(es, isArray) =>
      if isArray then List(seq(|es|, i requires 0 <= i < |es| => ZeroOf(es[i])), true) else Nil
    case Map(_) => Nil
    case Struct(fs) =>
      Struct(seq(|fs|, i requires 0 <= i < |fs| => Field(fs[i].exported, ZeroOf(fs[i].value))))
  }

  /** `IsZero` reports exactly the values equal to the zero value of their type. */
  lemma {:induction false} IsZeroIsZeroOf(v: Value)
    ensures IsZero(v) <==> v == ZeroOf(v)
  {
    match v
    case List(es, isArray) =>
      if isArray {
        forall i | 0 <= i < |es| ensures IsZero(es[i]) <==> es[i] == ZeroOf(es[i]) {
          IsZeroIsZeroOf(es[i]);
        }
        if v == ZeroOf(v) {
          forall i | 0 <= i < |es| ensures IsZero(es[i]) {
            assert ZeroOf(v).elems[i] == ZeroOf(es[i]);
          }
        }
      }
    case Struct(fs) =>
      forall i | 0 <= i < |fs| ensures IsZero(fs[i].value) <==> fs[i].value == ZeroOf(fs[i].value) {
        IsZeroIsZeroOf(fs[i].value);
      }
      if v == ZeroOf(v) {
        forall i | 0 <= i < |fs| ensures IsZero(fs[i].value) {
          assert ZeroOf(v).fields[i] == Field(fs[i].exported, ZeroOf(fs[i].value));
        }
      }
    case _ =>
  }

  /** Whether `toString` renders a struct field: exported and not zero. */
  predicate Shown(f: Field) {
    f.exported && !IsZero(f.value)
  }

  /** The kinds `toString` walks into, after dereferencing a pointer once. */
  predicate Compound(v: Value) {
    v.List? || v.Map? || v.Struct?
  }

  /** What `toString` writes for a list of parts: each part followed by a space. */
  function Spaced(ws: seq<string>): (r: string)
    ensures ws == [] ==> r == ""
  {
    if ws == [] then "" else Spaced(ws[..|ws| - 1]) + ws[|ws| - 1] + " "
  }

  /** The parts joined with single spaces. */
  function JoinWords(ws: seq<string>): string {
    if |ws| == 0 then "" else if |ws| == 1 then ws[0] else JoinWords(ws[..|ws| - 1]) + " " + ws[|ws| - 1]
  }

  /** The values of key-value pairs, in order. */
  function Values(ps: seq<(string, string)>): (r: seq<string>)
    ensures |r| == |ps| && forall i :: 0 <= i < |ps| ==> r[i] == ps[i].1
  {
    seq(|ps|, i requires 0 <= i < |ps| => ps[i].1)
  }

  // ---------------------------------------------------------------------
  // Sorting by key (`sort.Slice` with the `%v` texts of the keys compared by `<`)

  predicate SortedByKey(s: seq<(string, string)>) {
    forall i, j :: 0 <= i < j < |s| ==> !Less(s[j].0, s[i].0)
  }

  /** No two different entries share a key. */
  predicate KeysDistinct<T(==)>(s: seq<(string, T)>) {
    forall x, y :: x in s && y in s && x.0 == y.0 ==> x == y
  }

  lemma LessAsymmetric(a: string, b: string)
    requires Less(a, b)
    ensures !Less(b, a)
  {
    if Less(b, a) {
      LessTransitive(a, b, a);
      LessIrreflexive(a);
    }
  }

  /** Every element of `t`, which holds `x` and the elements of `s`, is not
      below `k` when none of those is. */
  lemma NoneBelow(k: string, x: (string, string), s: seq<(string, string)>, t: seq<(string, string)>)
    requires multiset(t) == multiset(s) + multiset{x}
    requires !Less(x.0, k) && forall y :: y in s ==> !Less(y.0, k)
    ensures forall j :: 0 <= j < |t| ==> !Less(t[j].0, k)
  {
    forall j | 0 <= j < |t|
      ensures !Less(t[j].0, k)
    {
      assert t[j] in multiset(t);
    }
  }

  /** The elements after the first of a sorted sequence are not below it. */
  lemma HeadIsLeast(s: seq<(string, string)>)
    requires SortedByKey(s) && s != []
    ensures forall y :: y in s[1..] ==> !Less(y.0, s[0].0)
  {
    forall y | y in s[1..]
      ensures !Less(y.0, s[0].0)
    {
      var k :| 0 <= k < |s[1..]| && s[1..][k] == y;
      assert s[k + 1] == y;
    }
  }

  /** Inserts `x` in front of the first entry whose key is not below its own. */
  function Insert(x: (string, string), s: seq<(string, string)>): (r: seq<(string, string)>)
    requires SortedByKey(s)
    ensures SortedByKey(r) && multiset(r) == multiset(s) + multiset{x}
  {
    if s == [] then [x]
    else if !Less(s[0].0, x.0) then
      InsertInFront(x, s);
      [x] + s
    else
      var t := Insert(x, s[1..]);
      InsertBehind(x, s, t);
      [s[0]] + t
  }

  /** An entry whose key is not above the first key may go in front. */
  lemma InsertInFront(x: (string, string), s: seq<(string, string)>)
    requires SortedByKey(s) && s != [] && !Less(s[0].0, x.0)
    ensures SortedByKey([x] + s)
  {
    assert forall j :: 0 <= j < |s| ==> !Less(s[j].0, x.0) by {
      forall j | 0 <= j < |s|
        ensures !Less(s[j].0, x.0)
      {
        if j != 0 {
          NotLessTransitive(x.0, s[0].0, s[j].0);
        }
      }
    }
    assert forall j :: 1 <= j < |[x] + s| ==> ([x] + s)[j] == s[j - 1];
  }

  /** An entry whose key is above the first key goes into the rest. */
  lemma InsertBehind(x: (string, string), s: seq<(string, string)>, t: seq<(string, string)>)
    requires SortedByKey(s) && s != [] && Less(s[0].0, x.0)
    requires SortedByKey(t) && multiset(t) == multiset(s[1..]) + multiset{x}
    ensures SortedByKey([s[0]] + t) && multiset([s[0]] + t) == multiset(s) + multiset{x}
  {
    LessAsymmetric(s[0].0, x.0);
    HeadIsLeast(s);
    NoneBelow(s[0].0, x, s[1..], t);
    assert s == [s[0]] + s[1..];
    assert forall j :: 1 <= j < |[s[0]] + t| ==> ([s[0]] + t)[j] == t[j - 1];
  }

  /** `sort.Slice` on the keys' texts: a sorted permutation. */
  function SortByKey(s: seq<(string, string)>): (r: seq<(string, string)>)
    ensures SortedByKey(r) && multiset(r) == multiset(s)
  {
    if s == [] then []
    else
      assert s == [s[0]] + s[1..];
      Insert(s[0], SortByKey(s[1..]))
  }

  lemma {:induction false} LessAntisymmetric(a: string, b: string)
    requires !Less(a, b) && !Less(b, a)
    ensures a == b
  {
    if a != [] && b != [] {
      LessAntisymmetric(a[1..], b[1..]);
      assert a == [a[0]] + a[1..] && b == [b[0]] + b[1..];
    }
  }

  lemma SortedTail(s: seq<(string, string)>)
    requires SortedByKey(s) && s != []
    ensures SortedByKey(s[1..])
  {
    var t := s[1..];
    forall i, j | 0 <= i < j < |t|
      ensures !Less(t[j].0, t[i].0)
    {
      assert t[i] == s[i + 1] && t[j] == s[j + 1];
    }
  }

  lemma DistinctTail<T>(s: seq<(string, T)>)
    requires KeysDistinct(s) && s != []
    ensures KeysDistinct(s[1..])
  {
    var t := s[1..];
    forall x, y | x in t && y in t && x.0 == y.0
      ensures x == y
    {
      assert x in s && y in s;
    }
  }

  /** Two sorted arrangements of the same entries with distinct keys start
      with the same entry. */
  lemma SortedHeadsAgree(a: seq<(string, string)>, b: seq<(string, string)>)
    requires SortedByKey(a) && SortedByKey(b) && multiset(a) == multiset(b) && KeysDistinct(a)
    requires a != [] && b != []
    ensures a[0] == b[0]
  {
    assert b[0] in multiset(a) && a[0] in multiset(b);
    var k :| 0 <= k < |a| && a[k] == b[0];
    var m :| 0 <= m < |b| && b[m] == a[0];
    if k == 0 { LessIrreflexive(a[0].0); }
    if m == 0 { LessIrreflexive(b[0].0); }
    assert !Less(a[k].0, a[0].0) && !Less(a[0].0, a[k].0);
    LessAntisymmetric(a[0].0, a[k].0);
    assert a[0] in a && a[k] in a;
  }

  /** With distinct keys there is only one sorted arrangement of the entries. */
  lemma {:induction false} SortedUnique(a: seq<(string, string)>, b: seq<(string, string)>)
    requires SortedByKey(a) && SortedByKey(b) && multiset(a) == multiset(b) && KeysDistinct(a)
    ensures a == b
    decreases |a|
  {
    assert |a| == |multiset(a)| == |multiset(b)| == |b|;
    if a != [] {
      SortedHeadsAgree(a, b);
      assert a == [a[0]] + a[1..] && b == [b[0]] + b[1..];
      assert multiset(a[1..]) == multiset(a) - multiset{a[0]};
      assert multiset(b[1..]) == multiset(b) - multiset{b[0]};
      SortedTail(a);
      SortedTail(b);
      DistinctTail(a);
      SortedUnique(a[1..], b[1..]);
    }
  }

  // ---------------------------------------------------------------------
  // `toString` as a specification

  /** What `%v` prints for a value `toString` does not walk: an `int` in
      decimal, a string as itself, a pointer as its address. */
  function Printed(v: Value): string {
    match v
    case Int(n) => Decimal(n)
    case Str(s) => s
    case Ptr(addr, _) => addr
    case _ => ""
  }

  /** `toString(obj)`: the text the kind of `v` calls for, with the spaces at
      both ends cut off. */
  function Render(v: Value): (r: string)
    ensures r != [] ==> r[0] != ' ' && r[|r| - 1] != ' '
    decreases v, 1
  {
    Trim(Body(v), {' '})
  }

  /** What `toString` writes to its builder. A pointer is dereferenced once;
      maps, slices, arrays and structs are walked, each part followed by a
      space; nil writes nothing; any other value, including a pointer to a
      value that is not walked, is printed with `%v`. */
  function Body(v: Value): string
    decreases v, 0
  {
    match v
    case Nil => ""
    case Int(_) => Printed(v)
    case Str(_) => Printed(v)
    case Ptr(_, target) => if Compound(target) then Body(target) else Printed(v)
    case List(es, _) => Spaced(Words(es))
    case Map(es) => Spaced(Values(SortByKey(RenderPairs(v, |es|))))
    case Struct(fs) => Spaced(ShownWords(v, |fs|))
  }

  /** The renderings of a list's elements, in order. */
  function Words(es: seq<Value>): (r: seq<string>)
    ensures |r| == |es|
    decreases es, 0
  {
    if es == [] then [] else Words(es[..|es| - 1]) + [Render(es[|es| - 1])]
  }

  lemma WordsAppend(es: seq<Value>, v: Value)
    ensures Words(es + [v]) == Words(es) + [Render(v)]
  {
    assert (es + [v])[..|es|] == es;
  }

  /** Each word is the rendering of the element in the same place. */
  lemma {:induction false} WordsAt(es: seq<Value>, i: nat)
    requires i < |es|
    ensures Words(es)[i] == Render(es[i])
  {
    if i < |es| - 1 {
      WordsAt(es[..|es| - 1], i);
    }
  }

  /** The first `n` entries of map `m`, with their values rendered. */
  function RenderPairs(m: Value, n: nat): (r: seq<(string, string)>)
    requires m.Map? && n <= |m.entries|
    ensures |r| == n
    decreases m, 0, n
  {
    if n == 0 then []
    else
      var e := m.entries[n - 1];
      RenderPairs(m, n - 1) + [(e.0, Render(e.1))]
  }

  /** Each rendered entry keeps the key of the entry in the same place and
      holds the rendering of its value. */
  lemma {:induction false} RenderPairsAt(m: Value, n: nat, i: nat)
    requires m.Map? && i < n <= |m.entries|
    ensures RenderPairs(m, n)[i] == (m.entries[i].0, Render(m.entries[i].1))
  {
    if i < n - 1 {
      RenderPairsAt(m, n - 1, i);
    }
  }

  /** The renderings of the shown fields among the first `n` fields of
      struct `st`, in declaration order. */
  function ShownWords(st: Value, n: nat): seq<string>
    requires st.Struct? && n <= |st.fields|
    decreases st, 0, n
  {
    if n == 0 then []
    else
      var f := st.fields[n - 1];
      ShownWords(st, n - 1) + (if Shown(f) then [Render(f.value)] else [])
  }

  // ---------------------------------------------------------------------
  // `toString` as the source writes it

  /** `toString`: dereferences a pointer once, then lets the kind decide what
      goes into the builder, and trims the builder's spaces. */
  method ToString(v: Value) returns (r: string)
    ensures r == Render(v)
    decreases v, 1
  {
    var w := v;
    if v.Ptr? {
      w := v.target;
    }
    var sb := "";
    if w.Map? {
      sb := WriteMap(w);
      assert sb == Body(w);
    } else if w.List? {
      sb := WriteList(w);
      assert sb == Body(w);
    } else if w.Struct? {
      sb := WriteStruct(w);
      assert sb == Body(w);
    } else if w.Nil? && !v.Ptr? {
      sb := "";
    } else {
      sb := Printed(v);
    }
    assert sb == Body(v);
    r := Trim(sb, {' '});
  }

  /** The loop over a slice or an array: each element's rendering and a space. */
  method WriteList(w: Value) returns (sb: string)
    requires w.List?
    ensures sb == Spaced(Words(w.elems))
    decreases w, 0
  {
    var es := w.elems;
    sb := "";
    for i := 0 to |es|
      invariant sb == Spaced(Words(es[..i]))
    {
      var text := ToString(es[i]);
      assert es[..i + 1][..i] == es[..i];
      sb := sb + text + " ";
    }
    assert es[..|es|] == es;
  }

  /** The loop over a map: its values' renderings, in the order of the keys'
      texts, each followed by a space. The values are rendered before the
      entries are put in key order, which writes the same text as sorting
      the keys first. */
  method WriteMap(w: Value) returns (sb: string)
    requires w.Map?
    ensures sb == Spaced(Values(SortByKey(RenderPairs(w, |w.entries|))))
    decreases w, 0
  {
    var es := w.entries;
    var pairs := [];
    for k := 0 to |es|
      invariant pairs == RenderPairs(w, k)
    {
      var text := ToString(es[k].1);
      pairs := pairs + [(es[k].0, text)];
    }
    var sorted := SortByKey(pairs);
    ghost var vals := Values(sorted);
    sb := "";
    for k := 0 to |sorted|
      invariant sb == Spaced(vals[..k])
    {
      assert vals[..k + 1] == vals[..k] + [sorted[k].1];
      sb := sb + sorted[k].1 + " ";
    }
    assert vals[..|sorted|] == vals;
  }

  /** The loop over a struct's fields, skipping the zero and the unexported ones. */
  method WriteStruct(w: Value) returns (sb: string)
    requires w.Struct?
    ensures sb == Spaced(ShownWords(w, |w.fields|))
    decreases w, 0
  {
    var fs := w.fields;
    sb := "";
    for i := 0 to |fs|
      invariant sb == Spaced(ShownWords(w, i))
    {
      if IsZero(fs[i].value) || !fs[i].exported {
        assert ShownWords(w, i + 1) == ShownWords(w, i);
        continue;
      }
      var text := ToString(fs[i].value);
      ghost var ws := ShownWords(w, i);
      assert (ws + [text])[..|ws|] == ws;
      sb := sb + text + " ";
    }
  }

  // ---------------------------------------------------------------------
  // Properties of `toString`

  /** The parts written with a trailing space each read back, once the last
      space is cut, as the parts joined by single spaces. */
  lemma {:induction false} SpacedJoin(ws: seq<string>)
    requires ws != []
    ensures Spaced(ws) == JoinWords(ws) + " "
  {
    if |ws| > 1 {
      SpacedJoin(ws[..|ws| - 1]);
      assert ws[..|ws| - 1][..|ws| - 2] == ws[..|ws| - 2];
    }
  }

  /** Cutting the spaces off `x + " "` gives `x` back when `x` neither starts
      nor ends with a space. */
  lemma TrimTrailingSpace(x: string)
    requires x != [] && x[0] != ' ' && x[|x| - 1] != ' '
    ensures Trim(x + " ", {' '}) == x
  {
    var s := x + " ";
    assert s[0] == x[0];
    assert TrimLeft(s, {' '}) == s;
    assert s[..|s| - 1] == x && s[|s| - 1] == ' ';
    assert TrimRight(x, {' '}) == x;
    assert TrimRight(s, {' '}) == TrimRight(x, {' '});
  }

  /** The joined parts neither start nor end with a space when the first and
      the last part do not. */
  lemma {:induction false} JoinWordsEnds(ws: seq<string>)
    requires ws != [] && forall i :: 0 <= i < |ws| ==> ws[i] != []
    ensures var j := JoinWords(ws); j != [] && j[0] == ws[0][0] && j[|j| - 1] == ws[|ws| - 1][|ws[|ws| - 1]| - 1]
  {
    if |ws| > 1 {
      JoinWordsEnds(ws[..|ws| - 1]);
    }
  }

  /** A part that is not empty and neither starts nor ends with a space. */
  predicate Bare(w: string) {
    w != [] && w[0] != ' ' && w[|w| - 1] != ' '
  }

  /** Bare parts, each written with a trailing space, read back after
      trimming as the parts joined by single spaces. */
  lemma SpacedTrim(ws: seq<string>)
    requires forall i :: 0 <= i < |ws| ==> Bare(ws[i])
    ensures Trim(Spaced(ws), {' '}) == JoinWords(ws)
  {
    if ws != [] {
      SpacedJoin(ws);
      JoinWordsEnds(ws);
      TrimTrailingSpace(JoinWords(ws));
    }
  }

  /** A slice or an array whose elements all render to something is written
      as their renderings, in order, separated by single spaces. */
  lemma ListJoinsWords(es: seq<Value>, isArray: bool)
    requires forall i :: 0 <= i < |es| ==> Render(es[i]) != []
    ensures Render(List(es, isArray)) == JoinWords(Words(es))
  {
    ListBody(es, isArray);
    SpacedWords(es);
  }

  lemma SpacedWords(es: seq<Value>)
    requires forall i :: 0 <= i < |es| ==> Render(es[i]) != []
    ensures Trim(Spaced(Words(es)), {' '}) == JoinWords(Words(es))
  {
    WordsBare(es);
    SpacedTrim(Words(es));
  }

  lemma ListBody(es: seq<Value>, isArray: bool)
    ensures Render(List(es, isArray)) == Trim(Spaced(Words(es)), {' '})
  {
    assert Body(List(es, isArray)) == Spaced(Words(es));
  }

  /** Elements that render to something give words with no space at either end. */
  lemma WordsBare(es: seq<Value>)
    requires forall i :: 0 <= i < |es| ==> Render(es[i]) != []
    ensures forall i :: 0 <= i < |Words(es)| ==> Bare(Words(es)[i])
  {
    var ws := Words(es);
    forall i | 0 <= i < |ws|
      ensures Bare(ws[i])
    {
      WordsAt(es, i);
    }
  }

  /** The values of the fields `toString` shows. */
  function ShownValues(fs: seq<Field>): (r: seq<Value>)
    ensures |r| <= |fs|
  {
    if fs == [] then []
    else
      var f := fs[|fs| - 1];
      ShownValues(fs[..|fs| - 1]) + (if Shown(f) then [f.value] else [])
  }

  lemma {:induction false} ShownWordsAreWords(fs: seq<Field>, n: nat)
    requires n <= |fs|
    ensures ShownWords(Struct(fs), n) == Words(ShownValues(fs[..n]))
  {
    if n > 0 {
      ShownWordsAreWords(fs, n - 1);
      assert fs[..n][..n - 1] == fs[..n - 1];
      var p := ShownValues(fs[..n - 1]);
      var f := fs[n - 1];
      if Shown(f) {
        WordsAppend(p, f.value);
      } else {
        assert p + [] == p;
      }
    }
  }

  /** A struct renders as the slice of the values of its exported, non-zero
      fields, in declaration order. */
  lemma StructAsList(fs: seq<Field>)
    ensures Render(Struct(fs)) == Render(List(ShownValues(fs), false))
  {
    ShownWordsAreWords(fs, |fs|);
    assert fs[..|fs|] == fs;
  }

  /** A struct all of whose fields are zero, the empty struct among them,
      renders as nothing. */
  lemma {:induction false} ZeroStructRendersEmpty(fs: seq<Field>)
    requires IsZero(Struct(fs))
    ensures ShownValues(fs) == []
    ensures Render(Struct(fs)) == ""
  {
    if fs != [] {
      ZeroStructRendersEmpty(fs[..|fs| - 1]);
    }
    StructAsList(fs);
  }

  /** A pointer to a map, a slice, an array or a struct renders as what it
      points to; a pointer to anything else (an `int`, a string, a nil
      pointer or a nil interface) renders as its address. */
  lemma PointerRendering(addr: string, target: Value)
    ensures Compound(target) ==> Render(Ptr(addr, target)) == Render(target)
    ensures !Compound(target) ==> Render(Ptr(addr, target)) == Trim(addr, {' '})
  {
  }

  /** A pointer to a nil or empty slice or map renders as "", not as its
      address. */
  lemma PointerToEmptyCollection(addr: string)
    ensures Render(Ptr(addr, List([], false))) == ""
    ensures Render(Ptr(addr, Map([]))) == ""
  {
    PointerRendering(addr, List([], false));
    PointerRendering(addr, Map([]));
    assert Words([]) == [];
    assert RenderPairs(Map([]), 0) == [];
  }

  /** A map renders as its values, ordered by the text of their keys. */
  lemma MapInKeyOrder(es: seq<(string, Value)>)
    ensures exists ps ::
      && SortedByKey(ps) && multiset(ps) == multiset(RenderPairs(Map(es), |es|))
      && Render(Map(es)) == Trim(Spaced(Values(ps)), {' '})
  {
    var ps := SortByKey(RenderPairs(Map(es), |es|));
    assert Render(Map(es)) == Trim(Spaced(Values(ps)), {' '});
  }

  /** The entries of `a` with `f` applied to each value. */
  function MapValues(a: seq<(string, Value)>, f: Value -> string): (r: seq<(string, string)>)
    ensures |r| == |a| && forall i :: 0 <= i < |a| ==> r[i] == (a[i].0, f(a[i].1))
  {
    if a == [] then [] else [(a[0].0, f(a[0].1))] + MapValues(a[1..], f)
  }

  lemma {:induction false} MapValuesAppend(a: seq<(string, Value)>, b: seq<(string, Value)>, f: Value -> string)
    ensures MapValues(a + b, f) == MapValues(a, f) + MapValues(b, f)
  {
    var l, r := MapValues(a + b, f), MapValues(a, f) + MapValues(b, f);
    assert |l| == |r|;
    forall i | 0 <= i < |l|
      ensures l[i] == r[i]
    {
      if i < |a| {
        assert (a + b)[i] == a[i];
      } else {
        assert (a + b)[i] == b[i - |a|];
      }
    }
  }

  /** Taking one entry out of a list takes its image out of the mapped list. */
  lemma {:induction false} MapValuesRemove(b: seq<(string, Value)>, j: nat, f: Value -> string)
    requires j < |b|
    ensures multiset(MapValues(b, f))
      == multiset(MapValues(b[..j] + b[j + 1..], f)) + multiset{(b[j].0, f(b[j].1))}
  {
    var b1, b2, x := b[..j], b[j + 1..], b[j];
    assert b == b1 + ([x] + b2);
    MapValuesAppend(b1, [x] + b2, f);
    MapValuesAppend([x], b2, f);
    MapValuesAppend(b1, b2, f);
    var m1, m2, fx := MapValues(b1, f), MapValues(b2, f), (x.0, f(x.1));
    var mx := MapValues([x], f);
    assert |mx| == 1 && mx[0] == fx;
    assert mx == [fx];
    calc {
      multiset(MapValues(b, f));
      multiset(m1 + ([fx] + m2));
      multiset(m1) + (multiset{fx} + multiset(m2));
      multiset(m1 + m2) + multiset{fx};
    }
  }

  /** Taking out the element at `j` takes one copy of it out of the multiset. */
  lemma {:induction false} RemoveAt<T>(b: seq<T>, j: nat)
    requires j < |b|
    ensures multiset(b[..j] + b[j + 1..]) == multiset(b) - multiset{b[j]}
  {
    assert b == b[..j] + [b[j]] + b[j + 1..];
  }

  /** Applying a function to the values of two lists with the same entries
      gives two lists with the same entries. */
  lemma {:induction false} MapValuesPermutation(a: seq<(string, Value)>, b: seq<(string, Value)>, f: Value -> string)
    requires multiset(a) == multiset(b)
    ensures multiset(MapValues(a, f)) == multiset(MapValues(b, f))
    decreases |a|
  {
    if a != [] {
      var x := a[0];
      assert x in multiset(b);
      var j :| 0 <= j < |b| && b[j] == x;
      var rest := b[..j] + b[j + 1..];
      RemoveAt(a, 0);
      assert a[..0] + a[1..] == a[1..];
      RemoveAt(b, j);
      MapValuesPermutation(a[1..], rest, f);
      MapValuesRemove(b, j, f);
      assert MapValues(a, f) == [(x.0, f(x.1))] + MapValues(a[1..], f);
    }
  }

  /** Rendering the values of two entry lists with the same entries gives
      two lists with the same rendered entries. */
  lemma RenderPairsPermutation(a: seq<(string, Value)>, b: seq<(string, Value)>)
    requires multiset(a) == multiset(b)
    ensures multiset(RenderPairs(Map(a), |a|)) == multiset(RenderPairs(Map(b), |b|))
  {
    var f := v => Render(v);
    MapValuesPermutation(a, b, f);
    RenderPairsMapValues(a, f);
    RenderPairsMapValues(b, f);
  }

  lemma RenderPairsMapValues(a: seq<(string, Value)>, f: Value -> string)
    requires forall v :: f(v) == Render(v)
    ensures RenderPairs(Map(a), |a|) == MapValues(a, f)
  {
    forall i | 0 <= i < |a|
      ensures RenderPairs(Map(a), |a|)[i] == MapValues(a, f)[i]
    {
      RenderPairsAt(Map(a), |a|, i);
    }
  }

  /** The iteration order of a map does not show in its rendering: any two
      orders of the same entries render alike, as long as no two entries
      have keys printing alike. */
  lemma MapOrderIrrelevant(a: seq<(string, Value)>, b: seq<(string, Value)>)
    requires multiset(a) == multiset(b) && KeysDistinct(a)
    ensures Render(Map(a)) == Render(Map(b))
  {
    var pa, pb := RenderPairs(Map(a), |a|), RenderPairs(Map(b), |b|);
    RenderPairsPermutation(a, b);
    RenderPairsDistinct(a);
    var sa, sb := SortByKey(pa), SortByKey(pb);
    PermutationDistinct(pa, sa);
    SortedUnique(sa, sb);
  }

  /** Rendering the values keeps the keys distinct. */
  lemma RenderPairsDistinct(a: seq<(string, Value)>)
    requires KeysDistinct(a)
    ensures KeysDistinct(RenderPairs(Map(a), |a|))
  {
    var pa := RenderPairs(Map(a), |a|);
    forall x, y | x in pa && y in pa && x.0 == y.0
      ensures x == y
    {
      var i :| 0 <= i < |pa| && pa[i] == x;
      var j :| 0 <= j < |pa| && pa[j] == y;
      RenderPairsAt(Map(a), |a|, i);
      RenderPairsAt(Map(a), |a|, j);
      assert a[i] in a && a[j] in a;
    }
  }

  /** Reordering the entries keeps the keys distinct. */
  lemma PermutationDistinct(p: seq<(string, string)>, q: seq<(string, string)>)
    requires KeysDistinct(p) && multiset(p) == multiset(q)
    ensures KeysDistinct(q)
  {
    forall x, y | x in q && y in q && x.0 == y.0
      ensures x == y
    {
      assert x in multiset(q) && y in multiset(q);
    }
  }

  // ---------------------------------------------------------------------
  // `CaseName`

  /** The characters of a `[_\s]+` run: the underscore and what RE2 counts as
      `\s` (tab, newline, form feed, carriage return, space). */
  const RunChars: set<char> := {'_', '\t', '\n', 12 as char, '\r', ' '}

  /** What `strings.TrimSpace` cuts: the white space of `unicode.IsSpace`. */
  const SpaceChars: set<char> := {
    '\t', '\n', 11 as char, 12 as char, '\r', ' ', '\U{85}', '\U{A0}', '\U{1680}',
    '\U{2000}', '\U{2001}', '\U{2002}', '\U{2003}', '\U{2004}', '\U{2005}', '\U{2006}',
    '\U{2007}', '\U{2008}', '\U{2009}', '\U{200A}', '\U{2028}', '\U{2029}', '\U{202F}',
    '\U{205F}', '\U{3000}'}

  /** The only run character is the space, and no two run characters are adjacent. */
  predicate SingleSpaced(s: string) {
    && (forall i :: 0 <= i < |s| && s[i] in RunChars ==> s[i] == ' ')
    && (forall i :: 0 <= i < |s| - 1 ==> !(s[i] in RunChars && s[i + 1] in RunChars))
  }

  /** `regexp.MustCompile("[_\\s]+").ReplaceAllString(s, " ")`. */
  function Collapse(s: string): string
    decreases |s|
  {
    if s == [] then []
    else if s[0] in RunChars then
      var rest := TrimLeft(s, RunChars);
      [' '] + Collapse(rest)
    else
      [s[0]] + Collapse(s[1..])
  }

  /** Every run has become a single space, and the first character stays a
      run character or not as it was. */
  lemma {:induction false} CollapseSingleSpaced(s: string)
    ensures SingleSpaced(Collapse(s))
    ensures s != [] ==> Collapse(s) != [] && (Collapse(s)[0] in RunChars <==> s[0] in RunChars)
    decreases |s|
  {
    if s != [] {
      var r := Collapse(s);
      var t := if s[0] in RunChars then TrimLeft(s, RunChars) else s[1..];
      TrimLeftShape(s, RunChars);
      CollapseSingleSpaced(t);
      var c := Collapse(t);
      assert r == [r[0]] + c;
      assert t != [] ==> (s[0] in RunChars ==> t[0] !in RunChars);
      forall i | 0 <= i < |r| - 1
        ensures !(r[i] in RunChars && r[i + 1] in RunChars)
      {
        if i > 0 {
          assert r[i] == c[i - 1] && r[i + 1] == c[i];
        }
      }
      forall i | 0 <= i < |r| && r[i] in RunChars
        ensures r[i] == ' '
      {
        if i > 0 {
          assert r[i] == c[i - 1];
        }
      }
    }
  }

  /** The string without its run characters. */
  function Strip(s: string): string {
    if s == [] then [] else (if s[0] in RunChars then [] else [s[0]]) + Strip(s[1..])
  }

  lemma {:induction false} StripTrimLeft(s: string)
    ensures Strip(TrimLeft(s, RunChars)) == Strip(s)
  {
    if s != [] && s[0] in RunChars {
      StripTrimLeft(s[1..]);
    }
  }

  /** Collapsing keeps every other character, in order. */
  lemma {:induction false} CollapseKeeps(s: string)
    ensures Strip(Collapse(s)) == Strip(s)
    decreases |s|
  {
    if s != [] {
      var r := Collapse(s);
      if s[0] in RunChars {
        var rest := TrimLeft(s, RunChars);
        CollapseKeeps(rest);
        StripTrimLeft(s);
        assert r[1..] == Collapse(rest);
      } else {
        CollapseKeeps(s[1..]);
        assert r[1..] == Collapse(s[1..]);
      }
    }
  }

  /** A string with no run to shrink is left as it is. */
  lemma {:induction false} CollapseFixed(s: string)
    requires SingleSpaced(s)
    ensures Collapse(s) == s
    decreases |s|
  {
    if s != [] {
      assert SingleSpaced(s[1..]);
      if s[0] in RunChars {
        assert s[1..] == [] || s[1..][0] !in RunChars;
        assert TrimLeft(s[1..], RunChars) == s[1..];
      }
      CollapseFixed(s[1..]);
      assert s == [s[0]] + s[1..];
    }
  }

  /** Collapsing twice changes nothing more. */
  lemma CollapseIdempotent(s: string)
    ensures Collapse(Collapse(s)) == Collapse(s)
  {
    CollapseSingleSpaced(s);
    CollapseFixed(Collapse(s));
  }

  lemma {:induction false} TrimLeftOfRun(run: string, b: string, cut: set<char>)
    requires forall i :: 0 <= i < |run| ==> run[i] in cut
    requires b == [] || b[0] !in cut
    ensures TrimLeft(run + b, cut) == b
  {
    if run != [] {
      assert (run + b)[1..] == run[1..] + b;
      TrimLeftOfRun(run[1..], b, cut);
    }
  }

  lemma {:induction false} TrimLeftAppend(a: string, c: string, cut: set<char>)
    requires TrimLeft(a, cut) != []
    ensures TrimLeft(a + c, cut) == TrimLeft(a, cut) + c
  {
    if a != [] && a[0] in cut {
      assert (a + c)[1..] == a[1..] + c;
      TrimLeftAppend(a[1..], c, cut);
    }
  }

  /** Each run, whatever its length and its characters, becomes one space
      between the collapsed text on either side of it. */
  lemma {:induction false} CollapseRun(a: string, run: string, b: string)
    requires run != [] && forall i :: 0 <= i < |run| ==> run[i] in RunChars
    requires a == [] || a[|a| - 1] !in RunChars
    requires b == [] || b[0] !in RunChars
    ensures Collapse(a + run + b) == Collapse(a) + " " + Collapse(b)
    decreases |a|
  {
    if a == [] {
      assert a + run + b == run + b;
      TrimLeftOfRun(run, b, RunChars);
    } else if a[0] !in RunChars {
      CollapseRunKept(a, run, b);
    } else {
      CollapseRunCut(a, run, b);
    }
  }

  /** `CollapseRun` when `a` starts with a character that is kept. */
  lemma {:induction false} CollapseRunKept(a: string, run: string, b: string)
    requires run != [] && forall i :: 0 <= i < |run| ==> run[i] in RunChars
    requires a != [] && a[0] !in RunChars && a[|a| - 1] !in RunChars
    requires b == [] || b[0] !in RunChars
    ensures Collapse(a + run + b) == Collapse(a) + " " + Collapse(b)
    decreases |a|, 0
  {
    var t := a[1..];
    CollapseRun(t, run, b);
    HeadSplit(a, run, b);
    CollapseKeptHead(a[0], t + run + b);
    CollapseKeptHead(a[0], t);
    JoinAssoc([a[0]], Collapse(t), Collapse(b));
  }

  /** Trimming a string that starts with a cut character and ends with
      another shortens it and keeps its last character. */
  lemma TrimLeftShorter(a: string, cut: set<char>)
    requires a != [] && a[0] in cut && a[|a| - 1] !in cut
    ensures var a' := TrimLeft(a, cut); a' != [] && |a'| < |a| && a'[|a'| - 1] == a[|a| - 1]
  {
    var a' := TrimLeft(a, cut);
    TrimLeftShape(a, cut);
    var k := |a| - 1;
    assert |a'| == 0 ==> k < |a| - |a'|;
  }

  lemma HeadSplit(a: string, run: string, b: string)
    requires a != []
    ensures a + run + b == [a[0]] + (a[1..] + run + b) && a == [a[0]] + a[1..]
  {
  }

  lemma AppendAssoc(x: string, y: string, z: string)
    ensures x + (y + z) == x + y + z
  {
  }

  lemma JoinAssoc(x: string, y: string, z: string)
    ensures x + (y + " " + z) == x + y + " " + z
  {
  }

  /** `CollapseRun` when `a` starts with a run of its own. */
  lemma {:induction false} CollapseRunCut(a: string, run: string, b: string)
    requires run != [] && forall i :: 0 <= i < |run| ==> run[i] in RunChars
    requires a != [] && a[0] in RunChars && a[|a| - 1] !in RunChars
    requires b == [] || b[0] !in RunChars
    ensures Collapse(a + run + b) == Collapse(a) + " " + Collapse(b)
    decreases |a|, 0
  {
    var a' := TrimLeft(a, RunChars);
    TrimLeftShorter(a, RunChars);
    TrimLeftAppend(a, run + b, RunChars);
    AppendAssoc(a, run, b);
    AppendAssoc(a', run, b);
    CollapseRun(a', run, b);
    CollapseRunHead(a + run + b);
    CollapseRunHead(a);
    JoinAssoc([' '], Collapse(a'), Collapse(b));
  }

  lemma CollapseKeptHead(c: char, t: string)
    requires c !in RunChars
    ensures Collapse([c] + t) == [c] + Collapse(t)
  {
    assert ([c] + t)[1..] == t;
  }

  lemma CollapseRunHead(s: string)
    requires s != [] && s[0] in RunChars
    ensures Collapse(s) == [' '] + Collapse(TrimLeft(s, RunChars))
  {
  }

  /** `len(s) > 64` cuts to 61 characters and three dots. */
  function Truncate(s: string): (r: string)
    ensures |r| <= 64
    ensures |s| <= 64 ==> r == s
    ensures |s| > 64 ==> r == s[..61] + "..."
    ensures SingleSpaced(s) ==> SingleSpaced(r)
    ensures '/' !in s ==> '/' !in r
  {
    if |s| > 64 then
      var r := s[..61] + "...";
      assert forall i :: 0 <= i < 61 ==> r[i] == s[i];
      r
    else s
  }

  /** The text after trimming, collapsing and replacing every `/` by `%`. */
  function Clean(s: string): (r: string)
    ensures SingleSpaced(r) && '/' !in r
  {
    var c := Collapse(Trim(s, SpaceChars));
    CollapseSingleSpaced(Trim(s, SpaceChars));
    ReplaceCharPointwise(c, '/', '%');
    ReplaceChar(c, '/', "%")
  }

  /** The last four steps of `CaseName`: at most 64 characters, no `/`, and
      of the characters `[_\s]` matches only the space, never two side by
      side. */
  function Normalize(s: string): (r: string)
    ensures |r| <= 64 && '/' !in r && '_' !in r && SingleSpaced(r)
  {
    Truncate(Clean(s))
  }

  /** How `CaseName` writes its `i`-th argument: an `int` in the first place
      zero-padded to two digits, everything else through `toString`. */
  function Piece(i: nat, v: Value): (r: string)
    ensures i == 0 && v.Int? && 0 <= v.n < 100 ==> |r| == 2 && IsDecimalText(r) && DecimalValue(r) == v.n
    ensures !(i == 0 && v.Int?) ==> r == Render(v)
  {
    if i == 0 && v.Int? then Pad2(v.n) else Render(v)
  }

  /** The text the loop of `CaseName` builds: every piece followed by a space. */
  function Line(args: seq<Value>): string {
    if args == [] then "" else Line(args[..|args| - 1]) + Piece(|args| - 1, args[|args| - 1]) + " "
  }

  /** `CaseName(obj...)`. */
  method CaseName(args: seq<Value>) returns (r: string)
    ensures r == Normalize(Line(args))
  {
    var s := "";
    for i := 0 to |args|
      invariant s == Line(args[..i])
    {
      LineStep(args, i);
      if i == 0 && args[i].Int? {
        s := s + Pad2(args[i].n) + " ";
        continue;
      }
      var text := ToString(args[i]);
      s := s + text + " ";
    }
    assert args[..|args|] == args;
    s := Trim(s, SpaceChars);
    s := Collapse(s);
    s := ReplaceChar(s, '/', "%");
    if |s| > 64 {
      return s[..61] + "...";
    }
    return s;
  }

  lemma LineStep(args: seq<Value>, i: nat)
    requires i < |args|
    ensures Line(args[..i + 1]) == Line(args[..i]) + Piece(i, args[i]) + " "
  {
    assert args[..i + 1][..i] == args[..i];
  }

  // ---------------------------------------------------------------------
  // Properties of `CaseName`

  /** The pieces of the arguments, in argument order. */
  function Pieces(args: seq<Value>): (r: seq<string>)
    ensures |r| == |args| && forall i :: 0 <= i < |args| ==> r[i] == Piece(i, args[i])
  {
    seq(|args|, i requires 0 <= i < |args| => Piece(i, args[i]))
  }

  lemma {:induction false} LineSpaced(args: seq<Value>)
    ensures Line(args) == Spaced(Pieces(args))
  {
    if args != [] {
      LineSpaced(args[..|args| - 1]);
      assert Pieces(args)[..|args| - 1] == Pieces(args[..|args| - 1]);
    }
  }

  /** A word: not empty, and free of white space and underscores. */
  predicate IsWord(w: string) {
    w != [] && forall i :: 0 <= i < |w| ==> w[i] !in SpaceChars && w[i] !in RunChars
  }

  lemma {:induction false} JoinWordsSingleSpaced(ws: seq<string>)
    requires forall i :: 0 <= i < |ws| ==> IsWord(ws[i])
    ensures SingleSpaced(JoinWords(ws))
    ensures forall i :: 0 <= i < |JoinWords(ws)| ==> JoinWords(ws)[i] !in SpaceChars || JoinWords(ws)[i] == ' '
  {
    if |ws| > 1 {
      var p := ws[..|ws| - 1];
      JoinWordsSingleSpaced(p);
      JoinWordsEnds(p);
      var x, w := JoinWords(p), ws[|ws| - 1];
      var j := x + " " + w;
      assert forall i :: 0 <= i < |x| ==> j[i] == x[i];
      assert forall i :: 0 <= i < |w| ==> j[|x| + 1 + i] == w[i];
      assert j[|x|] == ' ';
      forall i | 0 <= i < |j| - 1
        ensures !(j[i] in RunChars && j[i + 1] in RunChars)
      {
        if i < |x| - 1 {
          assert j[i] == x[i] && j[i + 1] == x[i + 1];
        } else if i == |x| - 1 {
          assert j[i] == x[|x| - 1] == p[|p| - 1][|p[|p| - 1]| - 1];
        } else {
          assert j[i + 1] == w[i - |x|];
        }
      }
    }
  }

  /** When every argument renders as a word, the name is those words, in
      argument order, separated by single spaces, with every `/` turned into
      `%` and the result cut to 64 characters. */
  lemma CaseNameOfWords(args: seq<Value>)
    requires args != []
    requires forall i :: 0 <= i < |args| ==> IsWord(Piece(i, args[i]))
    ensures Normalize(Line(args)) == Truncate(ReplaceChar(JoinWords(Pieces(args)), '/', "%"))
  {
    LineSpaced(args);
    PiecesAreWords(args);
    NormalizeSpaced(Pieces(args));
  }

  lemma PiecesAreWords(args: seq<Value>)
    requires forall i :: 0 <= i < |args| ==> IsWord(Piece(i, args[i]))
    ensures Pieces(args) != [] <==> args != []
    ensures forall i :: 0 <= i < |Pieces(args)| ==> IsWord(Pieces(args)[i])
  {
  }

  /** Words written each with a trailing space normalize to the words joined
      by single spaces, with `/` replaced and the length capped. */
  lemma NormalizeSpaced(ws: seq<string>)
    requires ws != [] && forall i :: 0 <= i < |ws| ==> IsWord(ws[i])
    ensures Normalize(Spaced(ws)) == Truncate(ReplaceChar(JoinWords(ws), '/', "%"))
  {
    SpacedJoin(ws);
    JoinWordsEnds(ws);
    JoinWordsSingleSpaced(ws);
    var j := JoinWords(ws);
    TrimWordsSpace(j, ws[0], ws[|ws| - 1]);
    CollapseFixed(j);
  }

  /** The white space after text that neither starts nor ends with white
      space is all `strings.TrimSpace` removes. */
  lemma TrimWordsSpace(j: string, first: string, last: string)
    requires IsWord(first) && IsWord(last)
    requires j != [] && j[0] == first[0] && j[|j| - 1] == last[|last| - 1]
    ensures Trim(j + " ", SpaceChars) == j
  {
    var s := j + " ";
    assert s[0] == j[0];
    assert TrimLeft(s, SpaceChars) == s;
    assert s[..|s| - 1] == j;
    assert TrimRight(s, SpaceChars) == TrimRight(j, SpaceChars) == j;
  }

  /** With a first `int` below 100 and words after it, the name starts with
      the two digits of the `int`. */
  lemma CaseNameLeadingInt(n: int, rest: seq<Value>)
    requires 0 <= n < 100
    requires forall i :: 0 <= i < |rest| ==> IsWord(Render(rest[i]))
    ensures var r := Normalize(Line([Int(n)] + rest));
      |r| >= 2 && r[..2] == Pad2(n) && DecimalValue(r[..2]) == n
  {
    var args := [Int(n)] + rest;
    var p := Pad2(n);
    assert Piece(0, args[0]) == p;
    DigitsAreWord(p);
    forall i | 0 <= i < |args|
      ensures IsWord(Piece(i, args[i]))
    {
      if i > 0 {
        assert args[i] == rest[i - 1];
      }
    }
    CaseNameOfWords(args);
    LeadingWord(Pieces(args));
  }

  lemma DigitsAreWord(w: string)
    requires w != [] && AllDigits(w)
    ensures IsWord(w)
  {
    forall i | 0 <= i < |w|
      ensures w[i] !in SpaceChars && w[i] !in RunChars
    {
      assert IsDigit(w[i]);
    }
  }

  /** The first word, when it is two characters without `/`, opens the
      normalized text. */
  lemma LeadingWord(ws: seq<string>)
    requires ws != [] && |ws[0]| == 2 && '/' !in ws[0]
    ensures var r := Truncate(ReplaceChar(JoinWords(ws), '/', "%"));
      |r| >= 2 && r[..2] == ws[0]
  {
    JoinWordsPrefix(ws);
    var j := JoinWords(ws);
    ReplaceCharPointwise(j, '/', '%');
    var r := ReplaceChar(j, '/', "%");
    assert r[0] == j[0] == ws[0][0] && r[1] == j[1] == ws[0][1];
  }

  lemma {:induction false} JoinWordsPrefix(ws: seq<string>)
    requires ws != []
    ensures |JoinWords(ws)| >= |ws[0]| && JoinWords(ws)[..|ws[0]|] == ws[0]
  {
    if |ws| > 1 {
      JoinWordsPrefix(ws[..|ws| - 1]);
    }
  }

  // ---------------------------------------------------------------------
  // Renderings of small values

  /** A string without spaces renders as itself. */
  lemma RenderStr(s: string)
    requires ' ' !in s
    ensures Render(Str(s)) == s
  {
    TrimNone(s, {' '});
  }

  /** An `int` renders in decimal. */
  lemma RenderInt(v: Value)
    requires v.Int?
    ensures Render(v) == Decimal(v.n)
  {
    DecimalNoSpace(v.n);
    TrimNone(Decimal(v.n), {' '});
    BodyInt(v);
  }

  lemma DecimalNoSpace(n: int)
    ensures ' ' !in Decimal(n)
  {
    DecimalChars(n);
  }

  lemma BodyInt(v: Value)
    requires v.Int?
    ensures Body(v) == Decimal(v.n)
  {
  }

  /** A one-element slice renders as its element. */
  lemma RenderOne(x: Value)
    requires Render(x) != []
    ensures Render(List([x], false)) == Render(x)
  {
    ListJoinsWords([x], false);
    WordsAt([x], 0);
  }

  /** A two-element slice of values that render to something renders as the
      two renderings with one space between them. */
  lemma RenderTwo(x: Value, y: Value)
    requires Render(x) != [] && Render(y) != []
    ensures Render(List([x, y], false)) == Render(x) + " " + Render(y)
  {
    var es := [x, y];
    assert forall i :: 0 <= i < |es| ==> es[i] == x || es[i] == y;
    ListJoinsWords(es, false);
    WordsOfTwo(x, y);
    JoinTwo(Render(x), Render(y));
  }

  lemma WordsOfTwo(x: Value, y: Value)
    ensures Words([x, y]) == [Render(x), Render(y)]
  {
    WordsAt([x, y], 0);
    WordsAt([x, y], 1);
  }

  lemma JoinTwo(a: string, b: string)
    ensures JoinWords([a, b]) == a + " " + b
  {
    assert [a, b][..1] == [a];
  }

  /** A three-element slice or array of values that render to something. */
  lemma RenderThree(x: Value, y: Value, z: Value, isArray: bool)
    requires Render(x) != [] && Render(y) != [] && Render(z) != []
    ensures Render(List([x, y, z], isArray)) == Render(x) + " " + Render(y) + " " + Render(z)
  {
    var es := [x, y, z];
    assert forall i :: 0 <= i < |es| ==> es[i] == x || es[i] == y || es[i] == z;
    ListJoinsWords(es, isArray);
    WordsOfThree(x, y, z);
    JoinThree(Render(x), Render(y), Render(z));
  }

  lemma WordsOfThree(x: Value, y: Value, z: Value)
    ensures Words([x, y, z]) == [Render(x), Render(y), Render(z)]
  {
    assert [x, y, z][..2] == [x, y];
    WordsOfTwo(x, y);
  }

  lemma JoinThree(a: string, b: string, c: string)
    ensures JoinWords([a, b, c]) == a + " " + b + " " + c
  {
    assert [a, b, c][..2] == [a, b];
    JoinTwo(a, b);
  }

  /** Two shown fields are both rendered, in order. */
  lemma ShownBoth(f: Field, g: Field)
    requires Shown(f) && Shown(g)
    ensures ShownValues([f, g]) == [f.value, g.value]
  {
    var fs := [f, g];
    assert fs[..1] == [f] && fs[..1][..0] == [];
  }

  /** A field that is not shown adds nothing. */
  lemma HiddenLast(fs: seq<Field>, f: Field)
    requires !Shown(f)
    ensures ShownValues(fs + [f]) == ShownValues(fs)
  {
    assert (fs + [f])[..|fs|] == fs;
  }

  /** A struct with two shown fields renders as the slice of their values. */
  lemma StructOfTwo(f: Field, g: Field)
    requires Shown(f) && Shown(g)
    ensures Render(Struct([f, g])) == Render(List([f.value, g.value], false))
  {
    ShownBoth(f, g);
    StructAsList([f, g]);
  }

  /** A slice of a string without spaces and an `int`. */
  lemma StringAndInt(name: string, n: int)
    requires name != [] && ' ' !in name
    ensures Render(List([Str(name), Int(n)], false)) == name + " " + Decimal(n)
  {
    RenderStr(name);
    RenderInt(Int(n));
    RenderTwo(Str(name), Int(n));
  }

  /** A struct of a non-empty string without spaces and a non-zero `int`. */
  lemma TwoFields(name: string, n: int)
    requires name != [] && ' ' !in name && n != 0
    ensures Render(Struct([Field(true, Str(name)), Field(true, Int(n))])) == name + " " + Decimal(n)
  {
    StructOfTwo(Field(true, Str(name)), Field(true, Int(n)));
    StringAndInt(name, n);
  }

  // ---------------------------------------------------------------------
  // The cases of tester/casename_test.go

  lemma PadOne()
    ensures Pad2(1) == "01"
  {
    SmallDecimals();
  }

  lemma SmallDecimals()
    ensures Decimal(1) == "1" && Decimal(2) == "2" && Decimal(3) == "3" && Decimal(5) == "5"
    ensures Decimal(10) == "10" && Decimal(20) == "20" && Decimal(30) == "30" && Decimal(42) == "42"
    ensures Pad2(1) == "01"
  {
    assert Digits(10) == Digits(1) + [DigitChar(0)];
    assert Digits(20) == Digits(2) + [DigitChar(0)];
    assert Digits(30) == Digits(3) + [DigitChar(0)];
    assert Digits(42) == Digits(4) + [DigitChar(2)];
  }

  lemma RenderedScalars()
    ensures Render(Nil) == ""
    ensures Render(Int(42)) == "42"
    ensures Render(Str("hello")) == "hello"
  {
    SmallDecimals();
    RenderInt(Int(42));
    RenderStr("hello");
  }

  lemma RenderedSliceOfInts()
    ensures Render(List([Int(1), Int(2), Int(3)], false)) == "1 2 3"
  {
    SmallDecimals();
    RenderInt(Int(1));
    RenderInt(Int(2));
    RenderInt(Int(3));
    RenderThree(Int(1), Int(2), Int(3), false);
  }

  lemma RenderedArrayOfStrings()
    ensures Render(List([Str("a"), Str("b"), Str("c")], true)) == "a b c"
  {
    StringsThree("a", "b", "c");
  }

  lemma StringsThree(a: string, b: string, c: string)
    requires a != [] && b != [] && c != [] && ' ' !in a && ' ' !in b && ' ' !in c
    ensures Render(List([Str(a), Str(b), Str(c)], true)) == a + " " + b + " " + c
  {
    RenderStr(a);
    RenderStr(b);
    RenderStr(c);
    RenderThree(Str(a), Str(b), Str(c), true);
  }

  /** A map whose iteration happens to yield "b" first still renders in key order. */
  lemma RenderedMap()
    ensures Render(Map([("b", Int(2)), ("a", Int(1))])) == "1 2"
  {
    var m := Map([("b", Int(2)), ("a", Int(1))]);
    TwoDigits();
    RenderInt(Int(2));
    RenderInt(Int(1));
    MapOfTwo(m);
    SortedTwoPairs();
    SpacedOneTwo();
  }

  /** A two-entry map renders as its two rendered entries sorted by key. */
  lemma MapOfTwo(m: Value)
    requires m.Map? && |m.entries| == 2
    ensures Render(m) == Trim(Spaced(Values(SortByKey(
      [(m.entries[0].0, Render(m.entries[0].1)), (m.entries[1].0, Render(m.entries[1].1))]))), {' '})
  {
    TwoPairs(m);
  }

  lemma TwoPairs(m: Value)
    requires m.Map? && |m.entries| == 2
    ensures RenderPairs(m, 2) == [(m.entries[0].0, Render(m.entries[0].1)), (m.entries[1].0, Render(m.entries[1].1))]
  {
    var ps := RenderPairs(m, 2);
    RenderPairsAt(m, 2, 0);
    RenderPairsAt(m, 2, 1);
    assert ps == [ps[0], ps[1]];
  }

  lemma TwoDigits()
    ensures Decimal(1) == "1" && Decimal(2) == "2"
  {
  }

  lemma SortedTwoPairs()
    ensures SortByKey([("b", "2"), ("a", "1")]) == [("a", "1"), ("b", "2")]
  {
    assert Less("a", "b");
    assert SortByKey([("a", "1")]) == [("a", "1")];
  }

  lemma SpacedOneTwo()
    ensures Trim(Spaced(Values([("a", "1"), ("b", "2")])), {' '}) == "1 2"
  {
    var vs := Values([("a", "1"), ("b", "2")]);
    assert vs == ["1", "2"];
    SpacedTrim(vs);
    JoinTwo("1", "2");
  }

  lemma RenderedStruct()
    ensures Render(Struct([Field(true, Str("Test")), Field(true, Int(10))])) == "Test 10"
  {
    TwoFields("Test", 10);
    SmallDecimals();
  }

  lemma RenderedPointer()
    ensures Render(Ptr("0xc000010000", Struct([Field(true, Str("Pointer")), Field(true, Int(20))]))) == "Pointer 20"
  {
    PointerToTwoFields("0xc000010000", "Pointer", 20);
    SmallDecimals();
  }

  /** A pointer to a struct of a string and an `int` renders as the struct. */
  lemma PointerToTwoFields(addr: string, name: string, n: int)
    requires name != [] && ' ' !in name && n != 0
    ensures Render(Ptr(addr, Struct([Field(true, Str(name)), Field(true, Int(n))]))) == name + " " + Decimal(n)
  {
    PointerRendering(addr, Struct([Field(true, Str(name)), Field(true, Int(n))]));
    TwoFields(name, n);
  }

  lemma RenderedHiddenField()
    ensures Render(Struct([Field(true, Str("Visible")), Field(true, Int(30)), Field(false, Str("hidden"))])) == "Visible 30"
  {
    HiddenThirdField("Visible", 30, Str("hidden"));
    SmallDecimals();
  }

  /** An unexported field after two shown ones is left out. */
  lemma HiddenThirdField(name: string, n: int, hidden: Value)
    requires name != [] && ' ' !in name && n != 0
    ensures Render(Struct([Field(true, Str(name)), Field(true, Int(n)), Field(false, hidden)])) == name + " " + Decimal(n)
  {
    var f, g, h := Field(true, Str(name)), Field(true, Int(n)), Field(false, hidden);
    assert [f, g, h] == [f, g] + [h];
    HiddenLast([f, g], h);
    ShownBoth(f, g);
    StructAsList([f, g, h]);
    StringAndInt(name, n);
  }

  lemma RenderedNilField()
    ensures Render(Struct([Field(true, Int(5)), Field(true, Nil)])) == "5"
  {
    IntThenNilField(5);
    SmallDecimals();
  }

  /** A nil field after a shown `int` is left out. */
  lemma IntThenNilField(n: int)
    requires n != 0
    ensures Render(Struct([Field(true, Int(n)), Field(true, Nil)])) == Decimal(n)
  {
    var f, g := Field(true, Int(n)), Field(true, Nil);
    assert [f, g] == [f] + [g];
    HiddenLast([f], g);
    assert ShownValues([f]) == [Int(n)] by {
      assert [f][..0] == [];
    }
    StructAsList([f, g]);
    DecimalNoSpace(n);
    RenderInt(Int(n));
    RenderOne(Int(n));
  }

  lemma CaseNameSingleInt()
    ensures Normalize(Line([Int(1)])) == "01"
  {
    var args := [Int(1)];
    SmallDecimals();
    assert Piece(0, Int(1)) == "01";
    DigitsAreWord("01");
    CaseNameOfWords(args);
    assert Pieces(args) == ["01"];
    ReplaceCharAbsent("01", '/', "%");
  }

  /** A `/` in an argument becomes `%`: `CaseName(1, a, "/" + w)`, as the test
      calls it with "test" and "/path", gives "01 a %w". */
  lemma CaseNameSpecialCharacters(a: string, w: string)
    requires a != [] && Plain(a) && Plain(w)
    requires |a| + |w| <= 58
    ensures Normalize(Line([Int(1), Str(a), Str("/" + w)])) == "01 " + a + " %" + w
  {
    var args := [Int(1), Str(a), Str("/" + w)];
    SlashedPieces(a, w);
    CaseNameOfWords(args);
    SlashedAfterNumber(a, w);
  }

  /** Visible ASCII characters other than `_` and `/`. */
  predicate Plain(s: string) {
    forall i :: 0 <= i < |s| ==> '!' <= s[i] <= '~' && s[i] != '_' && s[i] != '/'
  }

  /** The pieces of `CaseName(1, a, "/" + w)`: the padded number and the two
      strings, each a word. */
  lemma SlashedPieces(a: string, w: string)
    requires a != [] && Plain(a) && Plain(w)
    ensures Pieces([Int(1), Str(a), Str("/" + w)]) == ["01", a, "/" + w]
    ensures forall i :: 0 <= i < 3 ==> IsWord(Piece(i, [Int(1), Str(a), Str("/" + w)][i]))
    ensures '/' !in a && '/' !in w
  {
    var s := "/" + w;
    var args := [Int(1), Str(a), Str(s)];
    PadOne();
    PlainWords(a, w);
    assert Piece(0, args[0]) == "01" && Piece(1, args[1]) == a && Piece(2, args[2]) == s;
  }

  /** Plain strings, and a plain string after a `/`, are words that render as
      themselves. */
  lemma PlainWords(a: string, w: string)
    requires a != [] && Plain(a) && Plain(w)
    ensures IsWord("01") && IsWord(a) && IsWord("/" + w)
    ensures Render(Str(a)) == a && Render(Str("/" + w)) == "/" + w
    ensures '/' !in a && '/' !in w
  {
    var s := "/" + w;
    GraphicIsWord("01");
    GraphicIsWord(a);
    GraphicIsWord(s);
    RenderStr(a);
    RenderStr(s);
  }

  /** A non-empty string of visible ASCII characters other than `_` is a word. */
  lemma GraphicIsWord(w: string)
    requires w != [] && forall i :: 0 <= i < |w| ==> '!' <= w[i] <= '~' && w[i] != '_'
    ensures IsWord(w)
  {
  }

  /** A name longer than 64 characters keeps its first 61 and ends in "...". */
  lemma CaseNameLongString(w: string)
    requires |w| == 70 && forall i :: 0 <= i < |w| ==> w[i] == 'a'
    ensures Normalize(Line([Int(1), Str(w)])) == "01 " + w[..58] + "..."
  {
    var args := [Int(1), Str(w)];
    SmallDecimals();
    GraphicIsWord("01");
    GraphicIsWord(w);
    RenderStr(w);
    assert Pieces(args) == ["01", w];
    assert forall i :: 0 <= i < |args| ==> IsWord(Piece(i, args[i])) by {
      assert Piece(0, args[0]) == "01" && Piece(1, args[1]) == w;
    }
    CaseNameOfWords(args);
    LongNameCut(w);
  }

  /** "01" and a 70-letter word without `/`, joined, lose all after the 61st
      character. */
  lemma LongNameCut(w: string)
    requires |w| == 70 && '/' !in w
    ensures Truncate(ReplaceChar(JoinWords(["01", w]), '/', "%")) == "01 " + w[..58] + "..."
  {
    var j := "01" + " " + w;
    assert j[..61] == "01 " + w[..58];
    assert '/' !in j by {
      assert forall i :: 0 <= i < |j| ==> j[i] == '0' || j[i] == '1' || j[i] == ' ' || j[i] in w;
    }
    JoinTwo("01", w);
    ReplaceCharAbsent(j, '/', "%");
  }

  /** The number 1 and two words joined, of which only the second holds a `/`
      and only in front, come out with that `/` turned into `%`. */
  lemma SlashedAfterNumber(b: string, w: string)
    requires '/' !in b && '/' !in w && |b| + |w| <= 58
    ensures Truncate(ReplaceChar(JoinWords(["01", b, "/" + w]), '/', "%")) == "01 " + b + " %" + w
  {
    var p := "01 " + b + " ";
    JoinThree("01", b, "/" + w);
    assert "01" + " " + b + " " + ("/" + w) == p + ("/" + w);
    ReplaceCharAppend(p, "/" + w, '/', "%");
    NumberedFree(b);
    ReplaceCharAbsent(p, '/', "%");
    ReplaceLeadingSlash(w);
    assert p + ("%" + w) == "01 " + b + " %" + w;
  }

  lemma NumberedFree(b: string)
    requires '/' !in b
    ensures '/' !in "01 " + b + " "
  {
    var p := "01 " + b + " ";
    assert forall i :: 0 <= i < |p| ==> p[i] in "01 " || p[i] == ' ' || p[i] in b;
  }

  /** A leading `/` becomes `%` and nothing else changes. */
  lemma ReplaceLeadingSlash(w: string)
    requires '/' !in w
    ensures ReplaceChar("/" + w, '/', "%") == "%" + w
  {
    assert ("/" + w)[0] == '/' && ("/" + w)[1..] == w;
    ReplaceCharAbsent(w, '/', "%");
  }

  /** An argument that renders as nothing leaves only the space after it,
      which the trimming removes. */
  lemma CaseNameEmptyStruct()
    ensures Normalize(Line([Int(1), Struct([])])) == "01"
    ensures Normalize(Line([Int(1), Nil])) == "01"
  {
    ZeroStructRendersEmpty([]);
    SmallDecimals();
    var args := [Int(1), Struct([])];
    assert args[..1] == [Int(1)];
    assert Line(args) == "01 " + "" + " ";
    var nargs := [Int(1), Nil];
    assert nargs[..1] == [Int(1)];
    assert Line(nargs) == "01 " + "" + " ";
    NormalizeTwoSpaces();
  }

  lemma NormalizeTwoSpaces()
    ensures Normalize("01 " + "" + " ") == "01"
  {
    assert "01 " + "" + " " == "01" + "  ";
    GraphicIsWord("01");
    NormalizePaddedWord("01");
  }

  /** A word followed by two spaces normalizes to the word. */
  lemma NormalizePaddedWord(w: string)
    requires IsWord(w) && |w| <= 64 && '/' !in w
    ensures Normalize(w + "  ") == w
  {
    var s := w + "  ";
    assert s[0] == w[0] && w[0] !in SpaceChars;
    assert TrimLeft(s, SpaceChars) == s;
    assert s[..|s| - 1] == w + " " && (w + " ")[..|w|] == w;
    assert w[|w| - 1] !in SpaceChars;
    assert TrimRight(s, SpaceChars) == TrimRight(w + " ", SpaceChars) == TrimRight(w, SpaceChars) == w;
    JoinWordsSingleSpaced([w]);
    CollapseFixed(w);
    ReplaceCharAbsent(w, '/', "%");
  }
}
