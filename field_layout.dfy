/**
 * The pure part of registering an instance class: which declared fields are
 * instance fields, the object header size (the smallest instance-field
 * offset), and the instance fields ordered by offset, each stored relative
 * to the header.
 */
module FieldLayouts {
  import opened Bytes
  import opened BasicTypes

  /** A field as the klass declares it: its offset in the object, descriptor,
      whether it is internal or static, access flags and JNI field id. */
  datatype JField = JField(offset: U16, sig: seq<char>, isInternal: bool, isStatic: bool, accessFlags: U16, jniId: U64)

  /** A field the walker keeps: neither internal nor static. */
  predicate IsInstanceField(f: JField)
  {
    !f.isInternal && !f.isStatic
  }

  /** A descriptor whose first character `char2type` maps to a primitive or
      a reference type (anything else is unreachable in the walker). */
  predicate Typed(f: JField)
  {
    |f.sig| > 0 && IsTypeChar(f.sig[0]) && f.sig[0] != 'V'
  }

  /** `jfield.type(cp)`. */
  function FieldType(f: JField): (t: int)
    requires Typed(f)
    ensures IsBasicType(t) && (IsPrimitiveType(t) <==> !IsReferenceType(t))
    ensures IsReferenceType(t) <==> f.sig[0] == 'L' || f.sig[0] == '['
  {
    Char2Type(f.sig[0])
  }

  /** The instance fields among the first n, in declaration order: what
      the collecting loop gathers. */
  function InstanceFields(fs: seq<JField>, n: nat): (r: seq<JField>)
    requires n <= |fs|
    ensures |r| <= n
    ensures forall f :: f in r <==> exists i :: 0 <= i < n && fs[i] == f && IsInstanceField(f)
  {
    if n == 0 then []
    else if IsInstanceField(fs[n - 1]) then InstanceFields(fs, n - 1) + [fs[n - 1]]
    else InstanceFields(fs, n - 1)
  }

  /** The header size after the collecting loop has seen the first n fields:
      it starts at 255 and drops to any smaller instance-field offset. */
  function HeaderAfter(fs: seq<JField>, n: nat): (h: Byte)
    requires n <= |fs|
  {
    if n == 0 then 0xFF
    else
      var h := HeaderAfter(fs, n - 1);
      if IsInstanceField(fs[n - 1]) && fs[n - 1].offset < h then fs[n - 1].offset else h
  }

  /** The header is the least instance-field offset, or 255 when there is
      no instance field below 255. */
  lemma {:induction false} HeaderIsLeast(fs: seq<JField>, n: nat)
    requires n <= |fs|
    ensures forall i :: 0 <= i < n && IsInstanceField(fs[i]) ==> HeaderAfter(fs, n) <= fs[i].offset
    ensures HeaderAfter(fs, n) == 0xFF
            || exists i :: 0 <= i < n && IsInstanceField(fs[i]) && fs[i].offset == HeaderAfter(fs, n)
  {
    if n > 0 {
      HeaderIsLeast(fs, n - 1);
    }
  }

  /** Collecting loop of `walk_instance_klass` over the first `n` fields of
      the klass (`n` is the record's `n_field`): the instance fields among
      them and the header size. */
  method CollectInstanceFields(fs: seq<JField>, n: nat) returns (inst: seq<JField>, header: Byte)
    requires n <= |fs|
    ensures inst == InstanceFields(fs, n)
    ensures header == HeaderAfter(fs, n)
  {
    inst := [];
    header := 0xFF;
    var i := 0;
    while i < n
      invariant i <= n
      invariant inst == InstanceFields(fs, i)
      invariant header == HeaderAfter(fs, i)
    {
      if IsInstanceField(fs[i]) {
        inst := inst + [fs[i]];
        if fs[i].offset < header {
          header := fs[i].offset;
        }
      }
      i := i + 1;
    }
  }

  /** Fields in non-decreasing offset order. */
  predicate Ascending(fs: seq<JField>)
  {
    forall j, k :: 0 <= j < k < |fs| ==> fs[j].offset <= fs[k].offset
  }

  /** A field no further than the head of an ascending sequence can go in
      front of it. */
  lemma AscendingCons(a: JField, tail: seq<JField>)
    requires Ascending(tail)
    requires tail != [] ==> a.offset <= tail[0].offset
    ensures Ascending([a] + tail)
  {
    var r := [a] + tail;
    forall j, k | 0 <= j < k < |r|
      ensures r[j].offset <= r[k].offset
    {
      if j == 0 {
        assert r[k] == tail[k - 1];
        if k > 1 {
          assert tail[0].offset <= tail[k - 1].offset;
        }
      } else {
        assert r[j] == tail[j - 1] && r[k] == tail[k - 1];
      }
    }
  }

  /** Places x in front of the first field with an offset not below its
      own. */
  function InsertByOffset(sorted: seq<JField>, x: JField): (r: seq<JField>)
    ensures |r| == |sorted| + 1
    ensures multiset(r) == multiset(sorted) + multiset{x}
  {
    if sorted == [] then [x]
    else if x.offset <= sorted[0].offset then [x] + sorted
    else
      assert sorted == [sorted[0]] + sorted[1..];
      [sorted[0]] + InsertByOffset(sorted[1..], x)
  }

  /** Inserting into fields in offset order keeps them in offset order; the
      result starts with x or with the old first field. */
  lemma {:induction false} InsertKeepsAscending(sorted: seq<JField>, x: JField)
    requires Ascending(sorted)
    ensures Ascending(InsertByOffset(sorted, x))
    ensures var r := InsertByOffset(sorted, x);
            r[0] == x || (sorted != [] && r[0] == sorted[0])
  {
    if sorted == [] {
    } else if x.offset <= sorted[0].offset {
      AscendingCons(x, sorted);
    } else {
      var rest := sorted[1..];
      InsertKeepsAscending(rest, x);
      AscendingCons(sorted[0], InsertByOffset(rest, x));
    }
  }

  /** `std::ranges::sort` by offset: the same fields, in offset order. */
  function SortByOffset(fs: seq<JField>): (r: seq<JField>)
    ensures multiset(r) == multiset(fs) && |r| == |fs|
    ensures Ascending(r)
  {
    if fs == [] then []
    else
      var rest := SortByOffset(fs[..|fs| - 1]);
      assert fs == fs[..|fs| - 1] + [fs[|fs| - 1]];
      InsertKeepsAscending(rest, fs[|fs| - 1]);
      InsertByOffset(rest, fs[|fs| - 1])
  }

  /** The instance fields in the order `walk_instance_klass` stores them. */
  function SortedInstanceFields(fs: seq<JField>): (r: seq<JField>)
    ensures Ascending(r)
  {
    SortByOffset(InstanceFields(fs, |fs|))
  }

  /** No stored field lies below the header, so every relative offset is
      non-negative. */
  lemma {:induction false} HeaderBelowSorted(fs: seq<JField>, j: nat)
    requires j < |SortedInstanceFields(fs)|
    ensures HeaderAfter(fs, |fs|) <= SortedInstanceFields(fs)[j].offset
  {
    var inst := InstanceFields(fs, |fs|);
    var sorted := SortedInstanceFields(fs);
    HeaderIsLeast(fs, |fs|);
    assert sorted[j] in multiset(inst);
    assert sorted[j] in inst;
    var i :| 0 <= i < |fs| && fs[i] == sorted[j] && IsInstanceField(sorted[j]);
  }

  /** When some instance field lies below offset 255 the first stored field
      is the one at the header, so its relative offset is 0. */
  lemma {:induction false} FirstSortedAtHeader(fs: seq<JField>)
    requires |SortedInstanceFields(fs)| > 0 && HeaderAfter(fs, |fs|) < 0xFF
    ensures SortedInstanceFields(fs)[0].offset == HeaderAfter(fs, |fs|)
  {
    var inst := InstanceFields(fs, |fs|);
    var sorted := SortedInstanceFields(fs);
    var h := HeaderAfter(fs, |fs|);
    HeaderIsLeast(fs, |fs|);
    var i :| 0 <= i < |fs| && IsInstanceField(fs[i]) && fs[i].offset == h;
    assert fs[i] in inst;
    assert fs[i] in multiset(sorted);
    var k :| 0 <= k < |sorted| && sorted[k] == fs[i];
    assert sorted[0].offset <= sorted[k].offset;
    HeaderBelowSorted(fs, 0);
  }
}
