/** Attribute keys: creation, caching on objects, deletion, copying and recycling.

    Source: openmpi-1.4.2/ompi/attribute/attribute.c. */
module Attributes {
  import B = Bitmap

  datatype AttrType = CommAttr | WinAttr | TypeAttr

  /** A keyval: the kind of object it may be cached on, and its reference count. */
  datatype Keyval = Keyval(typ: AttrType, predefined: bool, refs: nat)

  datatype Code = Success | BadParam | NotFound | OutOfResource | CallbackError

  /** The attributes cached on an object. */
  datatype Object = Object(typ: AttrType, hash: map<nat, int>)

  // ----- counting -----

  /** The objects that cache a key. */
  ghost function Users(objects: map<nat, Object>, key: nat): set<nat> {
    set o | o in objects && key in objects[o].hash
  }

  /** The reference count of a key: one for the table until the key is freed, one for each object. */
  ghost function Count(objects: map<nat, Object>, freed: set<nat>, key: nat): nat {
    |Users(objects, key)| + if key in freed then 0 else 1
  }

  lemma {:induction false} CacheCount(objects: map<nat, Object>, o: nat, key: nat, value: int, k: nat)
    requires o in objects
    ensures var after := objects[o := objects[o].(hash := objects[o].hash[key := value])];
            |Users(after, k)| == |Users(objects, k)| + if k == key && key !in objects[o].hash then 1 else 0
  {
    var after := objects[o := objects[o].(hash := objects[o].hash[key := value])];
    if k == key && key !in objects[o].hash {
      assert Users(after, k) == Users(objects, k) + {o};
    } else {
      assert Users(after, k) == Users(objects, k);
    }
  }

  lemma {:induction false} UncacheCount(objects: map<nat, Object>, o: nat, key: nat, k: nat)
    requires o in objects && key in objects[o].hash
    ensures var after := objects[o := objects[o].(hash := objects[o].hash - {key})];
            |Users(after, k)| == |Users(objects, k)| - if k == key then 1 else 0
  {
    var after := objects[o := objects[o].(hash := objects[o].hash - {key})];
    if k == key {
      assert o in Users(objects, k);
      assert Users(after, k) == Users(objects, k) - {o};
    } else {
      assert Users(after, k) == Users(objects, k);
    }
  }

  // ----- the invariant -----

  /** Every cached key is in the table, with the type of the object. */
  ghost predicate Cached(table: map<nat, Keyval>, objects: map<nat, Object>) {
    forall o, k :: o in objects && k in objects[o].hash ==> k in table && table[k].typ == objects[o].typ
  }

  /** The reference counts are exact, and a key whose count would be 0 is not in the table. */
  ghost predicate Counted(table: map<nat, Keyval>, objects: map<nat, Object>, freed: set<nat>) {
    && (forall k :: k in table ==> table[k].refs == Count(objects, freed, k) && table[k].refs >= 1)
    && forall k :: k in freed ==> k in table
  }

  /** The bitmap has the bits of the keys in the table. */
  ghost predicate Mapped(table: map<nat, Keyval>, bytes: seq<B.byte>) {
    forall k: nat :: k in table <==> B.IsSet(bytes, k)
  }

  ghost predicate Good(table: map<nat, Keyval>, objects: map<nat, Object>, freed: set<nat>, bytes: seq<B.byte>) {
    Cached(table, objects) && Counted(table, objects, freed) && Mapped(table, bytes)
  }

  /** A key that is not in the table is not cached anywhere. */
  lemma {:induction false} NotCached(table: map<nat, Keyval>, objects: map<nat, Object>, freed: set<nat>, key: nat)
    requires Cached(table, objects) && Counted(table, objects, freed) && key !in table
    ensures key !in freed && Users(objects, key) == {}
  {
    assert forall o :: o in objects ==> key !in objects[o].hash;
  }

  /** What a reference given up leaves in the table. */
  function Released(table: map<nat, Keyval>, key: nat): map<nat, Keyval>
    requires key in table && table[key].refs >= 1
  {
    if table[key].refs == 1 then table - {key} else table[key := table[key].(refs := table[key].refs - 1)]
  }

  lemma {:induction false} CreatedGood(table: map<nat, Keyval>, objects: map<nat, Object>, freed: set<nat>,
                                       s: seq<B.byte>, t: seq<B.byte>,
                                       key: nat, typ: AttrType, predefined: bool)
    requires Good(table, objects, freed, s) && key !in table && B.Changed(s, t, key, true)
    ensures Good(table[key := Keyval(typ, predefined, 1)], objects, freed, t)
  {
    NotCached(table, objects, freed, key);
  }

  lemma {:induction false} FreedGood(table: map<nat, Keyval>, objects: map<nat, Object>, freed: set<nat>,
                                     s: seq<B.byte>, t: seq<B.byte>, key: nat)
    requires Good(table, objects, freed, s) && key in table
    requires table[key].refs > 1 ==> t == s
    requires table[key].refs == 1 ==> B.Changed(s, t, key, false)
    ensures Good(Released(table, key), objects, if table[key].refs == 1 then freed - {key} else freed + {key}, t) <==>
              key !in freed
  {
    var u := Released(table, key);
    var f := if table[key].refs == 1 then freed - {key} else freed + {key};
    if key in freed {
      if table[key].refs == 1 {
        SomeUser(objects, key);
      } else {
        assert u[key].refs + 1 == Count(objects, freed, key) && Count(objects, f, key) == Count(objects, freed, key);
      }
    } else {
      if table[key].refs == 1 {
        assert Users(objects, key) == {};
        assert forall o :: o in objects && key in objects[o].hash ==> o in Users(objects, key);
      }
      forall k | k in u ensures u[k].refs == Count(objects, f, k) && u[k].refs >= 1 {
        assert table[k].refs == Count(objects, freed, k);
      }
    }
  }

  lemma {:induction false} SomeUser(objects: map<nat, Object>, key: nat)
    requires |Users(objects, key)| >= 1
    ensures exists o :: o in objects && key in objects[o].hash
  {
    var o :| o in Users(objects, key);
  }

  lemma {:induction false} CachedGood(table: map<nat, Keyval>, objects: map<nat, Object>, freed: set<nat>,
                                      s: seq<B.byte>, o: nat, key: nat, value: int)
    requires Good(table, objects, freed, s) && o in objects && key in table && table[key].typ == objects[o].typ
    ensures var after := objects[o := objects[o].(hash := objects[o].hash[key := value])];
            var u := if key in objects[o].hash then table else table[key := table[key].(refs := table[key].refs + 1)];
            Good(u, after, freed, s)
  {
    var after := objects[o := objects[o].(hash := objects[o].hash[key := value])];
    var u := if key in objects[o].hash then table else table[key := table[key].(refs := table[key].refs + 1)];
    forall k | k in u ensures u[k].refs == Count(after, freed, k) && u[k].refs >= 1 {
      CacheCount(objects, o, key, value, k);
      assert table[k].refs == Count(objects, freed, k);
    }
  }

  lemma {:induction false} UncachedGood(table: map<nat, Keyval>, objects: map<nat, Object>, freed: set<nat>,
                                        s: seq<B.byte>, t: seq<B.byte>, o: nat, key: nat)
    requires Good(table, objects, freed, s) && o in objects && key in objects[o].hash && key in table
    requires table[key].refs > 1 ==> t == s
    requires table[key].refs == 1 ==> B.Changed(s, t, key, false)
    ensures var after := objects[o := objects[o].(hash := objects[o].hash - {key})];
            Good(Released(table, key), after, if table[key].refs == 1 then freed - {key} else freed, t)
  {
    var after := objects[o := objects[o].(hash := objects[o].hash - {key})];
    var u, f := Released(table, key), if table[key].refs == 1 then freed - {key} else freed;
    UncacheCount(objects, o, key, key);
    if table[key].refs == 1 {
      assert Users(after, key) == {};
      assert forall p :: p in after && key in after[p].hash ==> p in Users(after, key);
    }
    forall k | k in u ensures u[k].refs == Count(after, f, k) && u[k].refs >= 1 {
      UncacheCount(objects, o, key, k);
      assert table[k].refs == Count(objects, freed, k);
    }
  }

  lemma {:induction false} KeyKnown(table: map<nat, Keyval>, objects: map<nat, Object>, freed: set<nat>,
                                    bytes: seq<B.byte>, o: nat, key: nat)
    requires Good(table, objects, freed, bytes) && o in objects && key in objects[o].hash
    ensures key in table && table[key].typ == objects[o].typ
  {}

  /** The attributes that the callbacks let through, of the keys visited so far. */
  ghost function CopiedKeys(keys: seq<nat>, copies: map<nat, int>): map<nat, int> {
    map k | k in keys && k in copies :: copies[k]
  }

  lemma {:induction false} CopiedKeysNext(keys: seq<nat>, key: nat, copies: map<nat, int>)
    ensures CopiedKeys(keys + [key], copies) == if key in copies then CopiedKeys(keys, copies)[key := copies[key]]
              else CopiedKeys(keys, copies)
  {}

  /** The keys before the first one whose callback fails. */
  ghost function Passed(order: seq<nat>, fails: set<nat>): seq<nat> {
    if order == [] || order[0] in fails then [] else [order[0]] + Passed(order[1..], fails)
  }

  lemma {:induction false} PassedIs(order: seq<nat>, fails: set<nat>, i: nat)
    requires i <= |order| && (forall k :: k in order[..i] ==> k !in fails) && (i < |order| ==> order[i] in fails)
    ensures Passed(order, fails) == order[..i]
  {
    if i > 0 {
      assert order[0] in order[..i] && order[1..][..i - 1] == order[..i][1..];
      PassedIs(order[1..], fails, i - 1);
    }
  }

  /** The attributes of the keys that are still to be deleted. */
  ghost function Kept(hash: map<nat, int>, keys: seq<nat>): map<nat, int> {
    map k | k in keys && k in hash :: hash[k]
  }

  lemma {:induction false} KeptAll(hash: map<nat, int>, keys: seq<nat>)
    requires forall k :: k in keys <==> k in hash
    ensures Kept(hash, keys) == hash
  {}

  lemma {:induction false} KeptNone(hash: map<nat, int>)
    ensures Kept(hash, []) == map[]
  {}

  lemma {:induction false} KeptNext(hash: map<nat, int>, key: nat, rest: seq<nat>)
    requires key in hash && key !in rest
    ensures key in Kept(hash, [key] + rest) && Kept(hash, [key] + rest) - {key} == Kept(hash, rest)
  {}

  // ----- the operations -----

  class Attributes {
    const bitmap: B.Map
    var table: map<nat, Keyval>
    var objects: map<nat, Object>
    ghost var freed: set<nat>

    ghost predicate Valid()
      reads this, bitmap
    {
      bitmap.Valid() && Good(table, objects, freed, bitmap.bytes)
    }

    /** `ompi_attr_init`. */
    constructor ()
      ensures Valid() && table == map[] && objects == map[] && fresh(bitmap)
    {
      bitmap := new B.Map(32);
      table, objects, freed := map[], map[], {};
    }

    /** An object gets an empty set of attributes. */
    method NewObject(o: nat, typ: AttrType)
      requires Valid() && o !in objects
      modifies this`objects
      ensures Valid() && objects == old(objects)[o := Object(typ, map[])]
    {
      forall k ensures Users(objects[o := Object(typ, map[])], k) == Users(objects, k) {}
      objects := objects[o := Object(typ, map[])];
    }

    /** The reference to a keyval that is given up; the last one removes the key and frees its bit. */
    method Release(key: nat)
      requires Valid() && key in table
      modifies this`table, bitmap
      ensures bitmap.Valid() && table == Released(old(table), key)
      ensures old(table)[key].refs > 1 ==> bitmap.bytes == old(bitmap.bytes)
      ensures old(table)[key].refs == 1 ==> B.Changed(old(bitmap.bytes), bitmap.bytes, key, false)
    {
      var kv := table[key];
      if kv.refs == 1 {
        table := table - {key};
        assert B.IsSet(bitmap.bytes, key);
        var status := bitmap.ClearBit(key);
      } else {
        table := table[key := kv.(refs := kv.refs - 1)];
      }
    }

    /** `ompi_attr_create_keyval`: the new key is the least one that is not in use, and it is not
        cached on any object. */
    method CreateKeyval(typ: AttrType, predefined: bool) returns (code: Code, key: int)
      requires Valid()
      modifies this`table, bitmap
      ensures Valid() && (code.Success? || code.OutOfResource?)
      ensures code.Success? ==>
                && key >= 0 && key !in old(table) && (forall k: nat :: k < key ==> k in old(table))
                && (forall o :: o in objects ==> key !in objects[o].hash)
                && table == old(table)[key := Keyval(typ, predefined, 1)]
      ensures !code.Success? ==> table == old(table) && forall k: nat :: k <= B.OMPI_FORTRAN_HANDLE_MAX ==> k in table
    {
      ghost var s := bitmap.bytes;
      var status;
      status, key := bitmap.FindAndSet();
      if !status.Success? {
        return OutOfResource, key;
      }
      NotCached(table, objects, freed, key);
      assert forall o :: o in objects && key in objects[o].hash ==> o in Users(objects, key);
      CreatedGood(table, objects, freed, s, bitmap.bytes, key, typ, predefined);
      table := table[key := Keyval(typ, predefined, 1)];
      code := Success;
    }

    /** The caller may use the key for objects of this type. */
    predicate Usable(typ: AttrType, key: nat, predefined: bool)
      reads this
    {
      key in table && table[key].typ == typ && (predefined || !table[key].predefined)
    }

    /** `ompi_attr_free_keyval`.  The state stays consistent exactly if the key is freed for the
        first time. */
    method FreeKeyval(typ: AttrType, key: nat, predefined: bool) returns (code: Code)
      requires Valid()
      modifies this`table, this`freed, bitmap
      ensures code.Success? <==>
                key in old(table) && old(table)[key].typ == typ && (old(table)[key].predefined ==> predefined)
      ensures !code.Success? ==> code == BadParam
      ensures key in old(table) && old(table)[key].predefined && !predefined ==> code == BadParam
      ensures !code.Success? ==> Valid() && table == old(table)
      ensures code.Success? ==> table == Released(old(table), key) && (Valid() <==> key !in old(freed))
    {
      if !Usable(typ, key, predefined) {
        return BadParam;
      }
      ghost var s, t := bitmap.bytes, table;
      Release(key);
      FreedGood(t, objects, freed, s, bitmap.bytes, key);
      freed := if t[key].refs == 1 then freed - {key} else freed + {key};
      code := Success;
    }

    /** `set_value`; `deleted` is the result of the delete callback for a value that is replaced. */
    method SetValue(o: nat, key: nat, value: int, predefined: bool, deleted: bool) returns (code: Code)
      requires Valid() && o in objects
      modifies this`table, this`objects
      ensures Valid()
      ensures code.BadParam? <==>
                || key !in old(table) || old(table)[key].typ != old(objects)[o].typ
                || (old(table)[key].predefined && !predefined)
      ensures !code.BadParam? ==>
                code == if key in old(objects)[o].hash && !deleted then CallbackError else Success
      ensures !code.Success? ==> (table, objects) == old((table, objects))
      ensures code.Success? ==>
                objects == old(objects)[o := old(objects)[o].(hash := old(objects)[o].hash[key := value])]
      ensures code.Success? ==> forall k :: k in table <==> k in old(table)
      ensures code.Success? ==> forall k :: k in table ==>
                table[k].typ == old(table)[k].typ && table[k].predefined == old(table)[k].predefined
    {
      hide Good;
      var typ := objects[o].typ;
      if !Usable(typ, key, predefined) {
        return BadParam;
      }
      var hadOld := key in objects[o].hash;
      if hadOld && !deleted {
        return CallbackError;
      }
      CachedGood(table, objects, freed, bitmap.bytes, o, key, value);
      hide B.Map.Valid;
      objects := objects[o := objects[o].(hash := objects[o].hash[key := value])];
      if !hadOld {
        table := table[key := table[key].(refs := table[key].refs + 1)];
      }
      code := Success;
    }

    /** `ompi_attr_delete`; `deleted` is the result of the delete callback. */
    method Delete(o: nat, key: nat, predefined: bool, deleted: bool) returns (code: Code)
      requires Valid() && o in objects
      modifies this`table, this`objects, this`freed, bitmap
      ensures Valid()
      ensures code.BadParam? <==>
                || key !in old(table) || old(table)[key].typ != old(objects)[o].typ
                || (old(table)[key].predefined && !predefined)
      ensures !code.BadParam? ==>
                code == if key !in old(objects)[o].hash then NotFound else if !deleted then CallbackError else Success
      ensures !code.Success? ==> (table, objects) == old((table, objects))
      ensures code.Success? ==> objects == old(objects)[o := old(objects)[o].(hash := old(objects)[o].hash - {key})]
      ensures code.Success? ==> table == Released(old(table), key)
    {
      if !Usable(objects[o].typ, key, predefined) {
        return BadParam;
      }
      if key !in objects[o].hash {
        return NotFound;
      }
      if !deleted {
        return CallbackError;
      }
      ghost var s, t, u := bitmap.bytes, table, objects;
      Release(key);
      UncachedGood(t, u, freed, s, bitmap.bytes, o, key);
      objects := objects[o := objects[o].(hash := objects[o].hash - {key})];
      freed := if t[key].refs == 1 then freed - {key} else freed;
      code := Success;
    }

    /** `ompi_attr_copy_all` to a new object.  The keys are visited in the order of the hash table.
        The copy callback of a key fails, or says that the attribute is not copied, or returns the
        new value.  The keyval of every key is found, although the lookup is not checked. */
    method CopyAll(source: nat, target: nat, order: seq<nat>, fails: set<nat>, copies: map<nat, int>)
      returns (code: Code)
      requires Valid() && source in objects && target in objects && source != target
      requires objects[source].typ == objects[target].typ && objects[target].hash == map[]
      requires forall k :: k in order <==> k in objects[source].hash
      modifies this`table, this`objects
      ensures Valid() && code == if exists k :: k in order && k in fails then CallbackError else Success
      ensures objects == old(objects)[target := old(objects)[target].(hash := CopiedKeys(Passed(order, fails), copies))]
      ensures code.Success? ==> Passed(order, fails) == order
    {
      hide Good, Passed;
      ghost var was := objects;
      assert was == was[target := was[target].(hash := CopiedKeys([], copies))];
      for i := 0 to |order|
        invariant Valid() && forall k :: k in order[..i] ==> k !in fails
        invariant objects == was[target := was[target].(hash := CopiedKeys(order[..i], copies))]
      {
        var key := order[i];
        KeyKnown(table, objects, freed, bitmap.bytes, source, key);
        var keyval := table[key];
        if key in fails {
          PassedIs(order, fails, i);
          return CallbackError;
        }
        assert order[..i + 1] == order[..i] + [key];
        CopiedKeysNext(order[..i], key, copies);
        if key in copies {
          var status := SetValue(target, key, copies[key], true, true);
        }
      }
      assert order[..|order|] == order;
      PassedIs(order, fails, |order|);
      code := Success;
    }

    /** `ompi_attr_delete_all`: stops at the first delete callback that fails. */
    method DeleteAll(o: nat, order: seq<nat>, fails: set<nat>) returns (code: Code)
      requires Valid() && o in objects && (forall k :: k in order <==> k in objects[o].hash)
      requires forall i, j :: 0 <= i < j < |order| ==> order[i] != order[j]
      modifies this`table, this`objects, this`freed, bitmap
      ensures Valid() && o in objects
      ensures code == if exists k :: k in order && k in fails then CallbackError else Success
      ensures |Passed(order, fails)| <= |order|
      ensures objects
                == old(objects)[o :=
                                  old(objects)[o].(hash := Kept(old(objects)[o].hash, order[|Passed(order, fails)|..]))]
      ensures code.Success? ==> objects == old(objects)[o := old(objects)[o].(hash := map[])]
    {
      hide Good, Kept, Released, Passed;
      ghost var was := objects;
      KeptAll(objects[o].hash, order);
      assert order[0..] == order && was == was[o := was[o].(hash := Kept(was[o].hash, order))];
      for i := 0 to |order|
        invariant Valid() && forall k :: k in order[..i] ==> k !in fails
        invariant objects == was[o := was[o].(hash := Kept(was[o].hash, order[i..]))]
      {
        var key := order[i];
        assert order[i..] == [key] + order[i + 1..];
        KeptNext(was[o].hash, key, order[i + 1..]);
        KeyKnown(table, objects, freed, bitmap.bytes, o, key);
        code := Delete(o, key, true, key !in fails);
        if !code.Success? {
          PassedIs(order, fails, i);
          return;
        }
        assert order[..i + 1] == order[..i] + [key];
      }
      assert order[..|order|] == order && order[|order|..] == [];
      PassedIs(order, fails, |order|);
      KeptNone(was[o].hash);
      code := Success;
    }
  }

  /** A key that is cached once and freed twice: the second time succeeds and takes the reference that the
      object holds. */
  method DoubleFree() returns (a: Attributes, code: Code)
    ensures code == Success && !a.Valid()
  {
    a := new Attributes();
    var key;
    code, key := a.CreateKeyval(CommAttr, false);
    a.NewObject(0, CommAttr);
    code := a.SetValue(0, key, 7, false, true);
    code := a.FreeKeyval(CommAttr, key, false);
    code := a.FreeKeyval(CommAttr, key, false);
  }
}
