/** sanitizeForProm_: recursive pruning of a configuration tree without arrays. */
module Sanitize {
  import opened Options

  datatype Tree = Obj(fields: seq<Field>) | Str(s: string) | Num(n: real) | Bool(b: bool) | Null

  datatype Field = Field(key: string, value: Tree)

  /** What parseFloat makes of a key; None is NaN. Nothing is assumed about it. */
  type KeyNumber = string -> Option<real>

  /** lodash isEmpty: numbers, booleans and null are empty too. */
  predicate IsEmpty(t: Tree) {
    match t
    case Obj(fields) => fields == []
    case Str(s) => s == ""
    case _ => true
  }

  /** Dropped below the top level, replaced by null on it. */
  predicate Dropped(t: Tree) {
    IsEmpty(t) && t != Num(0.0)
  }

  /** The value that the loop body ends up with: objects are pruned one level deeper, and a text
      becomes the number its KEY parses to, if it does. */
  function Converted(key: string, t: Tree, number: KeyNumber): Tree
    decreases t, 1
  {
    match t
    case Obj(fields) => Obj(Pruned(fields, number, false))
    case Str(_) => if number(key).Some? then Num(number(key).value) else t
    case _ => t
  }

  function Pruned(fields: seq<Field>, number: KeyNumber, top: bool): seq<Field>
    decreases fields, 0
  {
    if fields == [] then []
    else Kept(fields[0].key, Converted(fields[0].key, fields[0].value, number), top) + Pruned(fields[1..], number, top)
  }

  /** What one entry contributes. */
  function Kept(key: string, v: Tree, top: bool): seq<Field> {
    if !Dropped(v) then [Field(key, v)] else if top then [Field(key, Null)] else []
  }

  function SanitizeForProm(fields: seq<Field>, number: KeyNumber): seq<Field> {
    Pruned(fields, number, true)
  }

  /** The transform itself: one pass over the fields, filling an accumulator. */
  method Transform(fields: seq<Field>, number: KeyNumber, top: bool) returns (o: seq<Field>)
    ensures o == Pruned(fields, number, top)
    decreases fields, 0
  {
    o := [];
    var i := 0;
    assert fields[0..] == fields;
    while i < |fields|
      invariant 0 <= i <= |fields|
      invariant o + Pruned(fields[i..], number, top) == Pruned(fields, number, top)
    {
      PrunedFrom(o, fields, i, number, top);
      var k := fields[i].key;
      var v := ConvertValue(k, fields[i].value, number);
      i := i + 1;
      if IsEmpty(v) && v != Num(0.0) {
        if !top {
          assert o + [] == o;
          continue;
        }
        v := Null;
      }
      o := o + [Field(k, v)];
    }
  }

  method ConvertValue(key: string, t: Tree, number: KeyNumber) returns (v: Tree)
    ensures v == Converted(key, t, number)
    decreases t, 1
  {
    v := t;
    if v.Obj? {
      var inner := Transform(v.fields, number, false);
      v := Obj(inner);
    }
    if v.Str? && number(key).Some? {
      v := Num(number(key).value);
    }
  }

  lemma PrunedFrom(o: seq<Field>, fields: seq<Field>, i: nat, number: KeyNumber, top: bool)
    requires i < |fields|
    ensures o + Pruned(fields[i..], number, top) ==
            o + Kept(fields[i].key, Converted(fields[i].key, fields[i].value, number), top)
              + Pruned(fields[i + 1..], number, top)
  {
    assert fields[i..][1..] == fields[i + 1..];
  }

  // ---- idempotence ----

  /** A value on which one more pass has nothing to do. */
  predicate Settled(key: string, t: Tree, number: KeyNumber)
    decreases t, 1
  {
    match t
    case Obj(fields) => fields != [] && SettledFields(fields, number)
    case Str(s) => s != "" && number(key).None?
    case Num(n) => n == 0.0
    case _ => false
  }

  predicate SettledFields(fields: seq<Field>, number: KeyNumber)
    decreases fields, 0
  {
    fields == [] || (Settled(fields[0].key, fields[0].value, number) && SettledFields(fields[1..], number))
  }

  /** A pass leaves only settled values below the top. */
  lemma {:induction false} PrunedIsSettled(fields: seq<Field>, number: KeyNumber)
    ensures SettledFields(Pruned(fields, number, false), number)
    decreases fields, 0
  {
    if fields != [] {
      var f := fields[0];
      ConvertedIsSettled(f.key, f.value, number);
      PrunedIsSettled(fields[1..], number);
      var v := Converted(f.key, f.value, number);
      var rest := Pruned(fields[1..], number, false);
      if !Dropped(v) {
        assert ([Field(f.key, v)] + rest)[1..] == rest;
      } else {
        assert Pruned(fields, number, false) == rest;
      }
    }
  }

  lemma {:induction false} ConvertedIsSettled(key: string, t: Tree, number: KeyNumber)
    ensures var v := Converted(key, t, number); !Dropped(v) ==> Settled(key, v, number)
    decreases t, 1
  {
    if t.Obj? {
      PrunedIsSettled(t.fields, number);
    }
  }

  /** Another pass keeps settled values as they are. */
  lemma {:induction false} SettledIsFixed(fields: seq<Field>, number: KeyNumber)
    requires SettledFields(fields, number)
    ensures Pruned(fields, number, false) == fields
    decreases fields, 0
  {
    if fields != [] {
      var f := fields[0];
      SettledValueIsFixed(f.key, f.value, number);
      SettledIsFixed(fields[1..], number);
      assert fields == [f] + fields[1..];
    }
  }

  lemma {:induction false} SettledValueIsFixed(key: string, t: Tree, number: KeyNumber)
    requires Settled(key, t, number)
    ensures Converted(key, t, number) == t && !Dropped(t)
    decreases t, 1
  {
    if t.Obj? {
      SettledIsFixed(t.fields, number);
    }
  }

  /** Top-level entries are settled or null. */
  predicate SettledTop(fields: seq<Field>, number: KeyNumber) {
    forall i :: 0 <= i < |fields| ==> fields[i].value == Null || Settled(fields[i].key, fields[i].value, number)
  }

  lemma {:induction false} TopShape(fields: seq<Field>, number: KeyNumber)
    ensures var r := Pruned(fields, number, true);
      && |r| == |fields| && SettledTop(r, number)
      && forall i :: 0 <= i < |r| ==> r[i].key == fields[i].key
    decreases |fields|
  {
    if fields != [] {
      TopShape(fields[1..], number);
      ConvertedIsSettled(fields[0].key, fields[0].value, number);
    }
  }

  lemma {:induction false} TopIsFixed(fields: seq<Field>, number: KeyNumber)
    requires SettledTop(fields, number)
    ensures Pruned(fields, number, true) == fields
    decreases |fields|
  {
    if fields != [] {
      var f := fields[0];
      TopIsFixed(fields[1..], number);
      if f.value != Null {
        SettledValueIsFixed(f.key, f.value, number);
      }
      assert fields == [f] + fields[1..];
    }
  }

  /** Sanitizing twice is sanitizing once, for every array-free configuration. */
  lemma SanitizeIsIdempotent(fields: seq<Field>, number: KeyNumber)
    ensures SanitizeForProm(SanitizeForProm(fields, number), number) == SanitizeForProm(fields, number)
  {
    TopShape(fields, number);
    TopIsFixed(SanitizeForProm(fields, number), number);
  }

  // ---- no empty value below the top ----

  predicate NoEmptyBelow(t: Tree)
    decreases t, 1
  {
    t.Obj? ==> NoEmptyFields(t.fields)
  }

  predicate NoEmptyFields(fields: seq<Field>)
    decreases fields, 0
  {
    fields == [] || (!Dropped(fields[0].value) && NoEmptyBelow(fields[0].value) && NoEmptyFields(fields[1..]))
  }

  lemma {:induction false} SettledHasNoEmpty(fields: seq<Field>, number: KeyNumber)
    requires SettledFields(fields, number)
    ensures NoEmptyFields(fields)
    decreases fields
  {
    if fields != [] {
      if fields[0].value.Obj? {
        SettledHasNoEmpty(fields[0].value.fields, number);
      }
      SettledHasNoEmpty(fields[1..], number);
    }
  }

  /** After sanitizing, every top-level key is still there, in order, and no object below the top
      level holds an empty value, at any depth. */
  lemma NothingEmptyBelowTop(fields: seq<Field>, number: KeyNumber)
    ensures var r := SanitizeForProm(fields, number);
      && |r| == |fields|
      && forall i :: 0 <= i < |r| ==> r[i].key == fields[i].key && NoEmptyBelow(r[i].value)
  {
    TopShape(fields, number);
    var r := SanitizeForProm(fields, number);
    forall i | 0 <= i < |r| ensures NoEmptyBelow(r[i].value) {
      if r[i].value.Obj? {
        SettledHasNoEmpty(r[i].value.fields, number);
      }
    }
  }

  // ---- what survives ----

  /** A value that is not an object, with the keys that lead to it. */
  datatype Leaf = Leaf(path: seq<string>, value: Tree)

  function Leaves(path: seq<string>, fields: seq<Field>): seq<Leaf>
    decreases fields, 0
  {
    if fields == [] then []
    else LeavesOf(path + [fields[0].key], fields[0].value) + Leaves(path, fields[1..])
  }

  function LeavesOf(path: seq<string>, t: Tree): seq<Leaf>
    decreases t, 1
  {
    match t
    case Obj(fields) => Leaves(path, fields)
    case _ => [Leaf(path, t)]
  }

  /** The leaves that are kept: each text converted by its own key, the empty ones dropped. */
  function Survivors(leaves: seq<Leaf>, number: KeyNumber): seq<Leaf> {
    if leaves == [] then []
    else
      var l := leaves[0];
      var v := if l.path == [] || l.value.Obj? then l.value else Converted(l.path[|l.path| - 1], l.value, number);
      (if Dropped(v) then [] else [Leaf(l.path, v)]) + Survivors(leaves[1..], number)
  }

  lemma {:induction false} SurvivorsConcat(a: seq<Leaf>, b: seq<Leaf>, number: KeyNumber)
    ensures Survivors(a + b, number) == Survivors(a, number) + Survivors(b, number)
    decreases |a|
  {
    if a == [] {
      assert a + b == b;
    } else {
      assert (a + b)[1..] == a[1..] + b;
      SurvivorsConcat(a[1..], b, number);
    }
  }

  /** Below the top a pass keeps exactly the surviving leaves, in place and in order. */
  lemma {:induction false} PrunedLeaves(path: seq<string>, fields: seq<Field>, number: KeyNumber)
    ensures Leaves(path, Pruned(fields, number, false)) == Survivors(Leaves(path, fields), number)
    decreases fields, 0
  {
    if fields != [] {
      var f := fields[0];
      var v := Converted(f.key, f.value, number);
      var rest := Pruned(fields[1..], number, false);
      ConvertedLeaves(path + [f.key], f.key, f.value, number);
      PrunedLeaves(path, fields[1..], number);
      SurvivorsConcat(LeavesOf(path + [f.key], f.value), Leaves(path, fields[1..]), number);
      if !Dropped(v) {
        assert ([Field(f.key, v)] + rest)[1..] == rest;
      } else {
        assert Pruned(fields, number, false) == rest;
      }
    }
  }

  lemma {:induction false} ConvertedLeaves(path: seq<string>, key: string, t: Tree, number: KeyNumber)
    requires path != [] && path[|path| - 1] == key
    ensures var v := Converted(key, t, number);
      Survivors(LeavesOf(path, t), number) == if Dropped(v) then [] else LeavesOf(path, v)
    decreases t, 1
  {
    if t.Obj? {
      PrunedLeaves(path, t.fields, number);
    } else {
      var l := [Leaf(path, t)];
      assert l[1..] == [];
    }
  }

  /** Sanitizing loses no surviving leaf: the survivors of the result are those of the input. */
  lemma {:induction false} SanitizeKeepsLeaves(path: seq<string>, fields: seq<Field>, number: KeyNumber)
    ensures Survivors(Leaves(path, SanitizeForProm(fields, number)), number) == Survivors(Leaves(path, fields), number)
    decreases |fields|
  {
    if fields != [] {
      var f := fields[0];
      var p := path + [f.key];
      var v := Converted(f.key, f.value, number);
      var w := if Dropped(v) then Null else v;
      var rest := SanitizeForProm(fields[1..], number);
      SanitizeKeepsLeaves(path, fields[1..], number);
      ConvertedLeaves(p, f.key, f.value, number);
      SurvivorsConcat(LeavesOf(p, f.value), Leaves(path, fields[1..]), number);
      assert SanitizeForProm(fields, number) == [Field(f.key, w)] + rest;
      assert ([Field(f.key, w)] + rest)[1..] == rest;
      SurvivorsConcat(LeavesOf(p, w), Leaves(path, rest), number);
      ConvertedTwice(p, f.key, f.value, number);
    }
  }

  lemma ConvertedTwice(path: seq<string>, key: string, t: Tree, number: KeyNumber)
    requires path != [] && path[|path| - 1] == key
    ensures var v := Converted(key, t, number);
      Survivors(LeavesOf(path, if Dropped(v) then Null else v), number) == Survivors(LeavesOf(path, t), number)
  {
    var v := Converted(key, t, number);
    ConvertedLeaves(path, key, t, number);
    if Dropped(v) {
      ConvertedLeaves(path, key, Null, number);
    } else {
      ConvertedIsSettled(key, t, number);
      SettledValueIsFixed(key, v, number);
      ConvertedLeaves(path, key, v, number);
    }
  }
}
