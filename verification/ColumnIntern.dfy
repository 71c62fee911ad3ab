/**
 Sharing of column lists across a batch conversion: equal lists come back as one
 shared slice, looked up by a string key built from every column's fields.

 A slice of converted columns is an object, so that sharing can be stated as
 identity; its contents never change here.
 */
module ColumnIntern {
  import opened Bytes

  datatype Field = Field(name: seq<byte>, typ: seq<byte>, comment: seq<byte>)

  class Columns {
    const fields: seq<Field>

    constructor (fs: seq<Field>)
      ensures fields == fs
    {
      fields := fs;
    }
  }

  // ------------------------------------------------------------ the key

  function FieldKey(f: Field): seq<byte> { f.name + [0] + f.typ + [0] + f.comment + [1] }

  function Key(fs: seq<Field>): seq<byte> {
    if fs == [] then [] else FieldKey(fs[0]) + Key(fs[1..])
  }

  /** No separator where it could be mistaken for one. Holds when no field has octet 0 or 1. */
  predicate Separable(fs: seq<Field>) {
    forall f :: f in fs ==> 0 !in f.name && 0 !in f.typ && 0 !in f.comment && 1 !in f.comment
  }

  lemma {:induction false} SameCut(a: seq<byte>, x: seq<byte>, b: seq<byte>, y: seq<byte>, c: byte)
    requires a + [c] + x == b + [c] + y && c !in a && c !in b
    ensures a == b && x == y
  {
    assert (a + [c] + x)[|a|] == c && (b + [c] + y)[|b|] == c;
    assert |a| == |b|;
    assert (a + [c] + x)[..|a|] == a && (a + [c] + x)[|a| + 1..] == x;
    assert (b + [c] + y)[..|b|] == b && (b + [c] + y)[|b| + 1..] == y;
  }

  lemma FirstFieldAgrees(f: Field, x: seq<byte>, g: Field, y: seq<byte>)
    requires FieldKey(f) + x == FieldKey(g) + y
    requires Separable([f]) && Separable([g])
    ensures f == g && x == y
  {
    assert f in [f] && g in [g];
    SplitField(f, x);
    SplitField(g, y);
    SameCut(f.name, f.typ + [0] + (f.comment + [1] + x), g.name, g.typ + [0] + (g.comment + [1] + y), 0);
    SameCut(f.typ, f.comment + [1] + x, g.typ, g.comment + [1] + y, 0);
    SameCut(f.comment, x, g.comment, y, 1);
  }

  lemma SplitField(f: Field, x: seq<byte>)
    ensures FieldKey(f) + x == f.name + [0] + (f.typ + [0] + (f.comment + [1] + x))
  {
  }

  /** Among separable lists the key decides the list. */
  lemma {:induction false} KeyIsInjective(fs: seq<Field>, gs: seq<Field>)
    requires Separable(fs) && Separable(gs) && Key(fs) == Key(gs)
    ensures fs == gs
  {
    if fs != [] && gs != [] {
      FirstFieldAgrees(fs[0], Key(fs[1..]), gs[0], Key(gs[1..]));
      KeyIsInjective(fs[1..], gs[1..]);
      assert fs == [fs[0]] + fs[1..] && gs == [gs[0]] + gs[1..];
    }
  }

  // ------------------------------------------------------------ exactly when a key is unambiguous

  function Zeros(s: seq<byte>): nat {
    if s == [] then 0 else (if s[0] == 0 then 1 else 0) + Zeros(s[1..])
  }

  lemma {:induction false} ZerosAdd(s: seq<byte>, t: seq<byte>)
    ensures Zeros(s + t) == Zeros(s) + Zeros(t)
  {
    if s == [] {
      assert s + t == t;
    } else {
      ZerosAdd(s[1..], t);
      assert (s + t)[1..] == s[1..] + t;
    }
  }

  lemma {:induction false} NoZeros(s: seq<byte>)
    ensures Zeros(s) == 0 <==> 0 !in s
  {
    if s != [] {
      NoZeros(s[1..]);
      assert s == [s[0]] + s[1..];
    }
  }

  lemma ZerosOfField(f: Field)
    ensures Zeros(FieldKey(f)) == 2 + Zeros(f.name) + Zeros(f.typ) + Zeros(f.comment)
  {
    ZerosAdd(f.name + [0] + f.typ + [0] + f.comment, [1]);
    ZerosAdd(f.name + [0] + f.typ + [0], f.comment);
    ZerosAdd(f.name + [0] + f.typ, [0]);
    ZerosAdd(f.name + [0], f.typ);
    ZerosAdd(f.name, [0]);
    assert Zeros([0]) == 1 && Zeros([1]) == 0;
  }

  predicate OneCleanColumn(fs: seq<Field>) {
    |fs| == 1 && 0 !in fs[0].name && 0 !in fs[0].typ && 0 !in fs[0].comment
  }

  /**
   Against any list at all, a key identifies a list exactly when the list is one
   column with no NUL in it: a longer list's key is also that of one column whose
   comment holds the separators.
   */
  lemma KeyIdentifiesIff(fs: seq<Field>)
    requires fs != []
    ensures (forall gs :: Key(gs) == Key(fs) ==> gs == fs) <==> OneCleanColumn(fs)
  {
    if OneCleanColumn(fs) {
      forall gs | Key(gs) == Key(fs) ensures gs == fs {
        CleanColumnIsIdentified(fs, gs);
      }
    } else {
      var gs := OtherReading(fs);
    }
  }

  lemma CleanColumnIsIdentified(fs: seq<Field>, gs: seq<Field>)
    requires OneCleanColumn(fs) && Key(gs) == Key(fs)
    ensures gs == fs
  {
    var f := fs[0];
    assert Key(fs) == FieldKey(f) + Key([]) == FieldKey(f);
    ZerosOfField(f);
    NoZeros(f.name);
    NoZeros(f.typ);
    NoZeros(f.comment);
    var g := gs[0];
    ZerosAdd(FieldKey(g), Key(gs[1..]));
    ZerosOfField(g);
    NoZeros(g.name);
    NoZeros(g.typ);
    if |gs| > 1 {
      ZerosAdd(FieldKey(gs[1]), Key(gs[1..][1..]));
      ZerosOfField(gs[1]);
    }
    assert gs == [g];
    assert Key(gs) == FieldKey(g) + Key(gs[1..]) == FieldKey(g);
    SplitField(f, []);
    SplitField(g, []);
    assert FieldKey(f) + [] == FieldKey(f) && FieldKey(g) + [] == FieldKey(g);
    SameCut(f.name, f.typ + [0] + (f.comment + [1] + []), g.name, g.typ + [0] + (g.comment + [1] + []), 0);
    SameCut(f.typ, f.comment + [1] + [], g.typ, g.comment + [1] + [], 0);
    assert f.comment + [1] + [] == f.comment + [1] && g.comment + [1] + [] == g.comment + [1];
    assert f.comment == (f.comment + [1])[..|f.comment|] && g.comment == (g.comment + [1])[..|g.comment|];
    assert fs == [f];
  }

  lemma CutAt(s: seq<byte>, c: byte) returns (a: seq<byte>, b: seq<byte>)
    requires c in s
    ensures s == a + [c] + b
  {
    var i :| 0 <= i < |s| && s[i] == c;
    a, b := s[..i], s[i + 1..];
  }

  lemma KeyEndsInOne(fs: seq<Field>)
    requires fs != []
    ensures Key(fs) != [] && Key(fs)[|Key(fs)| - 1] == 1
    decreases |fs|
  {
    if |fs| > 1 {
      KeyEndsInOne(fs[1..]);
    }
  }

  /** One column whose comment swallows the rest of the list. */
  lemma LongReading(fs: seq<Field>) returns (g: Field)
    requires |fs| > 1
    ensures FieldKey(g) == Key(fs)
  {
    var f, tail := fs[0], Key(fs[1..]);
    KeyEndsInOne(fs[1..]);
    hide Key;
    g := Field(f.name, f.typ, f.comment + [1] + tail[..|tail| - 1]);
    assert tail == tail[..|tail| - 1] + [1];
    assert FieldKey(g) == FieldKey(f) + tail;
  }

  /** Another column with the same key, cut at another NUL. */
  lemma ShiftedReading(f: Field) returns (g: Field)
    requires 0 in f.name || 0 in f.typ || 0 in f.comment
    ensures FieldKey(g) == FieldKey(f) && g != f
  {
    if 0 in f.name {
      var a, b := CutAt(f.name, 0);
      g := Field(a, b, f.typ + [0] + f.comment);
    } else if 0 in f.typ {
      var a, b := CutAt(f.typ, 0);
      g := Field(f.name, a, b + [0] + f.comment);
    } else {
      var a, b := CutAt(f.comment, 0);
      g := Field(f.name + [0] + f.typ, a, b);
    }
    assert FieldKey(g) == FieldKey(f);
  }

  lemma KeyOfOne(f: Field)
    ensures Key([f]) == FieldKey(f)
  {
    assert Key([f]) == FieldKey(f) + [];
  }

  lemma OtherReading(fs: seq<Field>) returns (gs: seq<Field>)
    requires fs != [] && !OneCleanColumn(fs)
    ensures Key(gs) == Key(fs) && gs != fs
  {
    var g;
    if |fs| > 1 {
      g := LongReading(fs);
    } else {
      g := ShiftedReading(fs[0]);
      assert fs == [fs[0]];
      KeyOfOne(fs[0]);
    }
    KeyOfOne(g);
    gs := [g];
  }

  // ------------------------------------------------------------ the interner

  type Cache = map<seq<byte>, Columns>

  /** Every entry is a converted list under its own key. */
  ghost predicate CacheOk(t: Cache) {
    forall key :: key in t ==> Key(t[key].fields) == key && t[key].fields != []
  }

  ghost predicate AllSeparable(t: Cache) { forall key :: key in t ==> Separable(t[key].fields) }

  predicate Extends(a: Cache, b: Cache) {
    forall key :: key in a ==> key in b && b[key] == a[key]
  }

  /** The result for a list is the table's one slice for its key. */
  ghost predicate Converts(t: Cache, fs: seq<Field>, r: Columns?) {
    if fs == [] then r == null else Key(fs) in t && r == t[Key(fs)]
  }

  class Interner {
    var table: Cache

    constructor ()
      ensures table == map[] && Valid()
    {
      table := map[];
    }

    ghost predicate Valid()
      reads this
    {
      CacheOk(table)
    }

    /**
     Returns the shared slice for fs. Whatever is in the table, it is a list with the
     key of fs; it is the list fs when both are separable.
     */
    method Intern(fs: seq<Field>) returns (r: Columns?)
      requires Valid()
      modifies this
      ensures Valid()
      ensures fs == [] ==> r == null && table == old(table)
      ensures fs != [] && Key(fs) in old(table) ==> r == old(table)[Key(fs)] && table == old(table)
      ensures fs != [] && Key(fs) !in old(table) ==>
                r != null && fresh(r) && r.fields == fs && table == old(table)[Key(fs) := r]
      ensures fs != [] ==> r != null && Key(r.fields) == Key(fs)
      ensures fs != [] && old(AllSeparable(table)) && Separable(fs) ==> r.fields == fs
    {
      if fs == [] {
        return null;
      }
      var key := BuildKey(fs);
      if key in table {
        if AllSeparable(table) && Separable(fs) {
          KeyIsInjective(table[key].fields, fs);
        }
        return table[key];
      }
      r := new Columns(fs);
      table := table[key := r];
    }

    /**
     Converts one batch. Every result is the table's slice for that list's key, which
     later batches keep, and what the batch adds to the table are lists of its own.
     */
    method ConvertBatch(batch: seq<seq<Field>>) returns (out: seq<Columns?>)
      requires Valid()
      modifies this
      ensures Valid() && Extends(old(table), table)
      ensures |out| == |batch| && forall i :: 0 <= i < |batch| ==> Converts(table, batch[i], out[i])
      ensures forall key :: key in table && key !in old(table) ==> table[key].fields in batch
    {
      hide Key;
      out := [];
      for i := 0 to |batch|
        invariant Valid() && Extends(old(table), table)
        invariant |out| == i && forall j :: 0 <= j < i ==> Converts(table, batch[j], out[j])
        invariant forall key :: key in table && key !in old(table) ==> table[key].fields in batch
      {
        assert batch[i] in batch;
        ghost var before := table;
        var r := Intern(batch[i]);
        assert forall j :: 0 <= j < i ==> Converts(before, batch[j], out[j]);
        out := out + [r];
      }
    }

    /**
     Any sequence of batches over one interner. Two lists, of whatever batches, come back
     as one slice exactly when they have one key. From an empty interner, every result
     has the contents plain conversion gives exactly when no two different lists among
     the inputs share a key; and that is so, whatever was interned before, when all are
     separable.
     */
    method ConvertBatches(batches: seq<seq<seq<Field>>>) returns (outs: seq<seq<Columns?>>)
      requires Valid()
      modifies this
      ensures Valid() && Shape(batches, outs)
      ensures forall i, j, i', j' :: At(batches, i, j) && At(batches, i', j') ==>
                                       (outs[i][j] == outs[i'][j'] <==> Key(batches[i][j]) == Key(batches[i'][j']))
      ensures old(table) == map[] ==> (AllRight(batches, outs) <==> KeysTellApart(batches))
      ensures old(AllSeparable(table)) && SeparableInputs(batches) ==> AllRight(batches, outs) && KeysTellApart(batches)
    {
      hide CacheOk, Converts, FromInputs, AllRight, KeysTellApart, AllSeparable, SeparableInputs, Key;
      ghost var before := table;
      outs := ConvertAll(batches);
      SharedIffSameKey(table, batches, outs);
      if before == map[] {
        RightIffKeysTellApart(before, table, batches, outs);
      }
      if AllSeparable(before) && SeparableInputs(batches) {
        SeparableIsRight(before, table, batches, outs);
      }
    }

    method ConvertAll(batches: seq<seq<seq<Field>>>) returns (outs: seq<seq<Columns?>>)
      requires Valid()
      modifies this
      ensures Valid() && Shape(batches, outs) && AllConverted(table, batches, outs)
      ensures FromInputs(old(table), table, batches)
    {
      hide Key, CacheOk;
      outs := [];
      for i := 0 to |batches|
        invariant Valid()
        invariant |outs| == i && forall j :: 0 <= j < i ==> |outs[j]| == |batches[j]|
        invariant forall j, k :: 0 <= j < i && 0 <= k < |batches[j]| ==> Converts(table, batches[j][k], outs[j][k])
        invariant FromInputs(old(table), table, batches)
      {
        ghost var before := table;
        var out := ConvertBatch(batches[i]);
        forall key | key in table && key !in before ensures Among(batches, table[key].fields) {
          var j :| 0 <= j < |batches[i]| && batches[i][j] == table[key].fields;
          assert At(batches, i, j);
        }
        assert forall j, k :: 0 <= j < i && 0 <= k < |batches[j]| ==> Converts(before, batches[j][k], outs[j][k]);
        outs := outs + [out];
      }
    }
  }

  // ------------------------------------------------------------ what a sequence of batches returns

  predicate At(batches: seq<seq<seq<Field>>>, i: int, j: int) { 0 <= i < |batches| && 0 <= j < |batches[i]| }

  ghost predicate Among(batches: seq<seq<seq<Field>>>, fs: seq<Field>) {
    exists i, j :: At(batches, i, j) && batches[i][j] == fs
  }

  ghost predicate AllConverted(t: Cache, batches: seq<seq<seq<Field>>>, outs: seq<seq<Columns?>>)
    requires Shape(batches, outs)
  {
    forall i, j :: At(batches, i, j) ==> Converts(t, batches[i][j], outs[i][j])
  }

  /** What was not in the table before is one of the inputs. */
  ghost predicate FromInputs(before: Cache, t: Cache, batches: seq<seq<seq<Field>>>) {
    forall key :: key in t ==> (key in before && t[key] == before[key]) || Among(batches, t[key].fields)
  }

  ghost predicate SeparableInputs(batches: seq<seq<seq<Field>>>) {
    forall i, j :: At(batches, i, j) ==> Separable(batches[i][j])
  }

  /** Every result has the contents plain conversion gives. */
  ghost predicate AllRight(batches: seq<seq<seq<Field>>>, outs: seq<seq<Columns?>>)
    requires Shape(batches, outs)
  {
    forall i, j :: At(batches, i, j) ==> Contents(outs[i][j]) == batches[i][j]
  }

  /** No two different lists among the inputs have the same key. */
  ghost predicate KeysTellApart(batches: seq<seq<seq<Field>>>) {
    forall i, j, i', j' ::
      At(batches, i, j) && At(batches, i', j') && Key(batches[i][j]) == Key(batches[i'][j']) ==>
        batches[i][j] == batches[i'][j']
  }

  lemma OnlyEmptyHasNoKey(fs: seq<Field>)
    ensures Key(fs) == [] <==> fs == []
  {
    if fs != [] {
      KeyEndsInOne(fs);
    }
  }

  lemma SharedIffSameKey(t: Cache, batches: seq<seq<seq<Field>>>, outs: seq<seq<Columns?>>)
    requires CacheOk(t) && Shape(batches, outs) && AllConverted(t, batches, outs)
    ensures forall i, j, i', j' :: At(batches, i, j) && At(batches, i', j') ==>
                                     (outs[i][j] == outs[i'][j'] <==> Key(batches[i][j]) == Key(batches[i'][j']))
  {
    hide Key;
    forall i, j, i', j' | At(batches, i, j) && At(batches, i', j')
      ensures outs[i][j] == outs[i'][j'] <==> Key(batches[i][j]) == Key(batches[i'][j'])
    {
      OnlyEmptyHasNoKey(batches[i][j]);
      OnlyEmptyHasNoKey(batches[i'][j']);
      assert Converts(t, batches[i][j], outs[i][j]) && Converts(t, batches[i'][j'], outs[i'][j']);
    }
  }

  lemma RightIffKeysTellApart(before: Cache, t: Cache, batches: seq<seq<seq<Field>>>, outs: seq<seq<Columns?>>)
    requires CacheOk(t) && Shape(batches, outs) && AllConverted(t, batches, outs)
    requires before == map[] && FromInputs(before, t, batches)
    ensures AllRight(batches, outs) <==> KeysTellApart(batches)
  {
    hide Key;
    SharedIffSameKey(t, batches, outs);
    if KeysTellApart(batches) {
      forall i, j | At(batches, i, j) ensures Contents(outs[i][j]) == batches[i][j] {
        assert Converts(t, batches[i][j], outs[i][j]);
        if batches[i][j] != [] {
          var i', j' :| At(batches, i', j') && batches[i'][j'] == outs[i][j].fields;
        }
      }
    }
    if AllRight(batches, outs) {
      forall i, j, i', j' | At(batches, i, j) && At(batches, i', j') && Key(batches[i][j]) == Key(batches[i'][j'])
        ensures batches[i][j] == batches[i'][j']
      {
        assert Contents(outs[i][j]) == batches[i][j] && Contents(outs[i'][j']) == batches[i'][j'];
      }
    }
  }

  lemma SeparableIsRight(before: Cache, t: Cache, batches: seq<seq<seq<Field>>>, outs: seq<seq<Columns?>>)
    requires CacheOk(t) && Shape(batches, outs) && AllConverted(t, batches, outs)
    requires FromInputs(before, t, batches) && AllSeparable(before) && SeparableInputs(batches)
    ensures AllRight(batches, outs) && KeysTellApart(batches)
  {
    hide Key, Separable;
    forall i, j | At(batches, i, j) ensures Contents(outs[i][j]) == batches[i][j] {
      assert Converts(t, batches[i][j], outs[i][j]);
      if batches[i][j] != [] {
        var key := Key(batches[i][j]);
        assert Separable(t[key].fields);
        KeyIsInjective(t[key].fields, batches[i][j]);
      }
    }
    forall i, j, i', j' | At(batches, i, j) && At(batches, i', j') && Key(batches[i][j]) == Key(batches[i'][j'])
      ensures batches[i][j] == batches[i'][j']
    {
      KeyIsInjective(batches[i][j], batches[i'][j']);
    }
  }

  predicate Shape(batches: seq<seq<seq<Field>>>, outs: seq<seq<Columns?>>) {
    |outs| == |batches| && forall i :: 0 <= i < |batches| ==> |outs[i]| == |batches[i]|
  }

  /** Plain conversion of an empty list is nil, of any other a list of the same columns. */
  function Contents(c: Columns?): seq<Field> { if c == null then [] else c.fields }

  method BuildKey(fs: seq<Field>) returns (r: seq<byte>)
    ensures r == Key(fs)
  {
    r := [];
    assert fs[0..] == fs;
    for i := 0 to |fs|
      invariant r + Key(fs[i..]) == Key(fs)
    {
      var f := fs[i];
      assert fs[i..][1..] == fs[i + 1..];
      assert r + (FieldKey(f) + Key(fs[i + 1..])) == (r + FieldKey(f)) + Key(fs[i + 1..]);
      r := r + (f.name + [0] + f.typ + [0] + f.comment + [1]);
    }
    assert r + [] == r;
  }
}
