/** The package manifest and the object operations `updatePackageJson`
    (src/index.js) performs on it: property read and assignment, object
    spread, `Object.entries`, the sub-key filter, and the top-level effect of
    `JSON.stringify`. Objects are ordered lists of properties, as JavaScript
    keeps string keys in insertion order. */
module Manifest {
  import opened Text

  /** A value held by a manifest property. `Undefined` is JavaScript's
      `undefined`, which `JSON.parse` never yields but a property read of a
      missing key does; `Lit` is any other JSON scalar (number, boolean) by
      its literal text. */
  datatype Value =
    | Undefined
    | Null
    | Str(s: string)
    | Lit(text: string)
    | Arr(items: seq<Value>)
    | Obj(fields: seq<Field>)

  datatype Field = Field(key: string, value: Value)

  type Object = seq<Field>

  /** One entry of the configuration's `filteredConfig`: the manifest key and
      the sub-keys to drop from it. */
  datatype FilterRule = FilterRule(key: string, drop: seq<string>)

  type FilterMap = seq<FilterRule>

  function Keys(obj: Object): (ks: seq<string>)
    ensures |ks| == |obj|
    ensures forall i {:trigger ks[i]} :: 0 <= i < |obj| ==> ks[i] == obj[i].key
    decreases |obj|
  {
    if obj == [] then [] else [obj[0].key] + Keys(obj[1..])
  }

  /** A JavaScript object never holds the same key twice. */
  predicate DistinctKeys(obj: Object) {
    forall i, j :: 0 <= i < j < |obj| ==> obj[i].key != obj[j].key
  }

  /** What `JSON.parse` of a package.json yields at top level. */
  predicate JsonObject(obj: Object) {
    DistinctKeys(obj) && forall i :: 0 <= i < |obj| ==> obj[i].value != Undefined
  }

  /** The property read `obj[key]`. */
  function Get(obj: Object, key: string): (v: Value)
    ensures key !in Keys(obj) ==> v == Undefined
    decreases |obj|
  {
    if obj == [] then Undefined
    else if obj[0].key == key then obj[0].value
    else Get(obj[1..], key)
  }

  /** The property assignment `obj[key] = v`: an existing key keeps its
      position, a new key goes last. */
  function Assign(obj: Object, key: string, v: Value): Object
    decreases |obj|
  {
    if obj == [] then [Field(key, v)]
    else if obj[0].key == key then [Field(key, v)] + obj[1..]
    else [obj[0]] + Assign(obj[1..], key, v)
  }

  /** After `obj[key] = v`, reading `key` gives `v`, every other key reads as
      before, and the keys keep their order, the new key going last. */
  lemma {:induction false} AssignFacts(obj: Object, key: string, v: Value)
    ensures key in Keys(obj) ==> Keys(Assign(obj, key, v)) == Keys(obj)
    ensures key !in Keys(obj) ==> Assign(obj, key, v) == obj + [Field(key, v)]
    ensures Get(Assign(obj, key, v), key) == v
    ensures forall k :: k != key ==> Get(Assign(obj, key, v), k) == Get(obj, k)
    decreases |obj|
  {
    if obj != [] && obj[0].key != key {
      AssignFacts(obj[1..], key, v);
      var r := Assign(obj, key, v);
      assert r[1..] == Assign(obj[1..], key, v);
      KeysTail(obj);
      KeysTail(r);
    }
  }

  /** The spread `{ ...obj, ...src }`: each property of `src`, in order,
      assigned onto `obj`. */
  function SpreadInto(obj: Object, src: Object): Object
    decreases |src|
  {
    if src == [] then obj else SpreadInto(Assign(obj, src[0].key, src[0].value), src[1..])
  }

  /** `JSON.stringify` leaves out the properties that hold `undefined`. */
  function Stringify(obj: Object): (r: Object)
    ensures (forall i :: 0 <= i < |obj| ==> obj[i].value != Undefined) ==> r == obj
    decreases |obj|
  {
    if obj == [] then []
    else if obj[0].value == Undefined then Stringify(obj[1..])
    else [obj[0]] + Stringify(obj[1..])
  }

  /** The sub-key list configured for `key`, if any. Every configured list,
      even an empty one, is truthy. */
  function DropList(filters: FilterMap, key: string): Option<seq<string>>
    decreases |filters|
  {
    if filters == [] then None
    else if filters[0].key == key then Some(filters[0].drop)
    else DropList(filters[1..], key)
  }

  /** `typeof value === 'object' && value !== null`. */
  predicate IsObject(v: Value) { v.Obj? || v.Arr? }

  /** `Object.entries` of an array, whose keys are the indices written in decimal. */
  function IndexEntries(items: seq<Value>, from: nat): (r: seq<Field>)
    ensures |r| == |items|
    ensures forall i {:trigger r[i]} :: 0 <= i < |items| ==> r[i] == Field(NatToDecimal(from + i), items[i])
    decreases |items|
  {
    if items == [] then []
    else [Field(NatToDecimal(from), items[0])] + IndexEntries(items[1..], from + 1)
  }

  /** `Object.entries(value)` for a value that is an object or an array. */
  function Entries(v: Value): seq<Field>
    requires IsObject(v)
  {
    if v.Obj? then v.fields else IndexEntries(v.items, 0)
  }

  /** `r` consists of elements of `s` taken in their order in `s`. */
  predicate Subsequence<T(==)>(r: seq<T>, s: seq<T>)
    decreases |s|
  {
    if r == [] then true
    else if s == [] then false
    else (r[0] == s[0] && Subsequence(r[1..], s[1..])) || Subsequence(r, s[1..])
  }

  /** `Object.entries(value).filter(([k]) => !drop.includes(k))`. */
  function KeepFields(fs: seq<Field>, drop: seq<string>): (r: seq<Field>)
    ensures Subsequence(r, fs)
    ensures forall f :: f in r <==> f in fs && f.key !in drop
    decreases |fs|
  {
    if fs == [] then []
    else if fs[0].key in drop then KeepFields(fs[1..], drop)
    else
      var r := [fs[0]] + KeepFields(fs[1..], drop);
      assert r[1..] == KeepFields(fs[1..], drop);
      r
  }

  /** The value the `map` callback gives for one manifest property (lines
      229-234): listed object-valued properties lose the listed sub-keys. */
  function FilterValue(key: string, v: Value, filters: FilterMap): Value
  {
    match DropList(filters, key)
    case Some(drop) => if IsObject(v) then Obj(KeepFields(Entries(v), drop)) else v
    case None => v
  }

  /** `Object.fromEntries(Object.entries(obj).map(...))`: every property in
      its place, with its value passed through the filter. */
  function FilterFields(obj: Object, filters: FilterMap): (r: Object)
    ensures |r| == |obj|
    ensures forall i {:trigger r[i]} :: 0 <= i < |obj| ==>
              r[i] == Field(obj[i].key, FilterValue(obj[i].key, obj[i].value, filters))
    decreases |obj|
  {
    if obj == [] then []
    else
      var r := [Field(obj[0].key, FilterValue(obj[0].key, obj[0].value, filters))]
               + FilterFields(obj[1..], filters);
      assert forall i :: 1 <= i < |obj| ==> r[i] == FilterFields(obj[1..], filters)[i - 1];
      r
  }

  /** The publish manifest object of lines 225-236,
      `{ ...packageJson, version: newVersion, ...mapped }`. */
  function PublishObject(m: Object, newVersion: Value, filters: FilterMap): Object
  {
    var rest := SpreadInto([], m);
    SpreadInto(Assign(rest, "version", newVersion), FilterFields(rest, filters))
  }

  /** The manifest that line 239 writes into the publish directory. */
  function PublishManifest(m: Object, newVersion: Value, filters: FilterMap): Object
  {
    Stringify(PublishObject(m, newVersion, filters))
  }

  /** The write-back guard of line 243. */
  predicate RewritesSource(m: Object, newVersion: Value, shouldUpdateMainVersion: bool)
  {
    shouldUpdateMainVersion && newVersion != Get(m, "version")
  }

  /** The source manifest line 245 writes, after line 244 assigns the version. */
  function RewrittenSource(m: Object, newVersion: Value): Object
  {
    Stringify(Assign(m, "version", newVersion))
  }

  /** What `updatePackageJson` writes: the publish manifest, always, and the
      source manifest when the guard holds. */
  datatype Writes = Writes(publish: Object, source: Option<Object>)

  function PackageJsonWrites(m: Object, newVersion: Value, filters: FilterMap,
                             shouldUpdateMainVersion: bool): Writes
  {
    Writes(PublishManifest(m, newVersion, filters),
           if RewritesSource(m, newVersion, shouldUpdateMainVersion)
           then Some(RewrittenSource(m, newVersion)) else None)
  }

  /** The parsed `packageJson` object, whose `version` line 244 sets in place. */
  class PackageJson {
    var fields: Object

    constructor (fields: Object)
      ensures this.fields == fields
    {
      this.fields := fields;
    }
  }

  /** `updatePackageJson(packageJson, newVersion, filteredConfig, publishPath,
      shouldUpdateMainVersion)`: builds and writes the publish manifest, then,
      when the guard holds, sets `version` on the object and writes it back.
      The two file writes are returned. */
  method UpdatePackageJson(pkg: PackageJson, newVersion: Value, filters: FilterMap,
                           shouldUpdateMainVersion: bool)
    returns (w: Writes)
    modifies pkg
    ensures w == PackageJsonWrites(old(pkg.fields), newVersion, filters, shouldUpdateMainVersion)
    ensures pkg.fields == if RewritesSource(old(pkg.fields), newVersion, shouldUpdateMainVersion)
                          then Assign(old(pkg.fields), "version", newVersion)
                          else old(pkg.fields)
  {
    var rest := SpreadInto([], pkg.fields);
    var publish := Stringify(SpreadInto(Assign(rest, "version", newVersion), FilterFields(rest, filters)));
    var source: Option<Object> := None;
    if shouldUpdateMainVersion && newVersion != Get(pkg.fields, "version") {
      pkg.fields := Assign(pkg.fields, "version", newVersion);
      source := Some(Stringify(pkg.fields));
    }
    w := Writes(publish, source);
  }

  // ---------------------------------------------------------------------
  // Properties of the object operations

  lemma KeysAppend(obj: Object, f: Field)
    ensures Keys(obj + [f]) == Keys(obj) + [f.key]
  {
    assert forall i :: 0 <= i < |obj| ==> Keys(obj + [f])[i] == Keys(obj)[i];
  }

  lemma KeysTail(obj: Object)
    requires obj != []
    ensures Keys(obj) == [obj[0].key] + Keys(obj[1..])
    ensures Keys(obj[1..]) == Keys(obj)[1..]
  {
  }

  lemma FilterFieldsKeys(m: Object, filters: FilterMap)
    ensures Keys(FilterFields(m, filters)) == Keys(m)
  {
    var r := FilterFields(m, filters);
    assert forall i :: 0 <= i < |m| ==> Keys(r)[i] == r[i].key == m[i].key == Keys(m)[i];
  }

  lemma SeqSplit(obj: Object)
    requires obj != []
    ensures [obj[0]] + obj[1..] == obj
  {
  }

  /** An assignment to a key the prefix does not hold happens after that prefix. */
  lemma {:induction false} AssignAfterPrefix(p: Object, rest: Object, k: string, v: Value)
    requires k !in Keys(p)
    ensures Assign(p + rest, k, v) == p + Assign(rest, k, v)
    decreases |p|
  {
    if p != [] {
      KeysTail(p);
      assert (p + rest)[1..] == p[1..] + rest;
      AssignAfterPrefix(p[1..], rest, k, v);
      assert [p[0]] + (p[1..] + Assign(rest, k, v)) == p + Assign(rest, k, v) by {
        SeqSplit(p);
      }
    } else {
      assert p + rest == rest;
      assert p + Assign(rest, k, v) == Assign(rest, k, v);
    }
  }

  /** Spreading properties with new keys appends them in order. */
  lemma {:induction false} SpreadAppends(obj: Object, src: Object)
    requires DistinctKeys(src)
    requires forall i :: 0 <= i < |src| ==> src[i].key !in Keys(obj)
    ensures SpreadInto(obj, src) == obj + src
    decreases |src|
  {
    if src != [] {
      var f := src[0];
      var next := Assign(obj, f.key, f.value);
      AssignFacts(obj, f.key, f.value);
      KeysAppend(obj, f);
      var rest := src[1..];
      forall i | 0 <= i < |rest| ensures rest[i].key !in Keys(next) {
        assert rest[i] == src[i + 1];
      }
      SpreadAppends(next, rest);
      AppendFirst(obj, src);
    }
  }

  lemma AppendFirst(obj: Object, src: Object)
    requires src != []
    ensures obj + [src[0]] + src[1..] == obj + src
  {
    SeqSplit(src);
  }

  lemma Regroup(p: Object, obj: Object, q: Object)
    requires obj != []
    ensures p + obj + q == p + (obj + q)
    ensures (obj + q)[1..] == obj[1..] + q
    ensures (obj + q)[0] == obj[0]
  {
  }

  lemma Regroup3(p: Object, f: Field, a: Object, q: Object)
    ensures p + ([f] + (a + q)) == (p + [f]) + a + q
  {
  }

  lemma AssignAtFront(obj: Object, k: string, v: Value)
    requires obj != [] && obj[0].key == k
    ensures Assign(obj, k, v) == [Field(k, v)] + obj[1..]
  {
  }

  /** Spreading `src` over an object whose middle part `obj` has the same keys
      in the same order overwrites that part with `src`, in place. */
  lemma {:induction false} SpreadOverSameKeys(p: Object, obj: Object, q: Object, src: Object)
    requires Keys(obj) == Keys(src) && DistinctKeys(src)
    requires forall i :: 0 <= i < |src| ==> src[i].key !in Keys(p)
    ensures SpreadInto(p + obj + q, src) == p + src + q
    decreases |src|
  {
    if src == [] {
      assert obj == [];
    } else {
      var f := src[0];
      assert Keys(obj)[0] == obj[0].key;
      assert Keys(src)[0] == f.key;
      KeysTail(obj);
      KeysTail(src);
      Regroup(p, obj, q);
      AssignAfterPrefix(p, obj + q, f.key, f.value);
      AssignAtFront(obj + q, f.key, f.value);
      Regroup3(p, f, obj[1..], q);
      var next := Assign(p + obj + q, f.key, f.value);
      assert next == (p + [f]) + obj[1..] + q;
      KeysAppend(p, f);
      var rest := src[1..];
      forall i | 0 <= i < |rest| ensures rest[i].key !in Keys(p + [f]) {
        assert rest[i] == src[i + 1];
      }
      SpreadOverSameKeys(p + [f], obj[1..], q, rest);
      assert (p + [f]) + rest + q == p + src + q by {
        AppendFirst(p, src);
      }
    }
  }

  lemma {:induction false} StringifyDropsLast(obj: Object, key: string)
    requires forall i :: 0 <= i < |obj| ==> obj[i].value != Undefined
    ensures Stringify(obj + [Field(key, Undefined)]) == obj
    decreases |obj|
  {
    if obj != [] {
      assert (obj + [Field(key, Undefined)])[1..] == obj[1..] + [Field(key, Undefined)];
      StringifyDropsLast(obj[1..], key);
    }
  }

  /** Copying a manifest by spreading it into `{}` reproduces it. */
  lemma SpreadCopies(m: Object)
    requires DistinctKeys(m)
    ensures SpreadInto([], m) == m
  {
    SpreadAppends([], m);
    assert [] + m == m;
  }

  lemma EmptyEnds(obj: Object, q: Object)
    ensures [] + obj + q == obj + q
    ensures obj + [] == obj
  {
  }

  /** Spreading the filtered entries over a copy that already holds
      `version` puts every filtered value back in its place. */
  lemma PublishObjectWithVersion(m: Object, newVersion: Value, filters: FilterMap)
    requires DistinctKeys(m) && "version" in Keys(m)
    ensures PublishObject(m, newVersion, filters) == FilterFields(m, filters)
  {
    var mapped := FilterFields(m, filters);
    FilterFieldsKeys(m, filters);
    DistinctByKeys(m, mapped);
    SpreadCopies(m);
    var o1 := Assign(m, "version", newVersion);
    AssignFacts(m, "version", newVersion);
    EmptyEnds(o1, []);
    EmptyEnds(mapped, []);
    SpreadOverSameKeys([], o1, [], mapped);
  }

  /** Without a `version` key the copy gains it last, and the filtered
      entries overwrite everything before it. */
  lemma PublishObjectWithoutVersion(m: Object, newVersion: Value, filters: FilterMap)
    requires DistinctKeys(m) && "version" !in Keys(m)
    ensures PublishObject(m, newVersion, filters)
         == FilterFields(m, filters) + [Field("version", newVersion)]
  {
    var mapped := FilterFields(m, filters);
    FilterFieldsKeys(m, filters);
    DistinctByKeys(m, mapped);
    SpreadCopies(m);
    var f := Field("version", newVersion);
    AssignFacts(m, "version", newVersion);
    EmptyEnds(m, [f]);
    EmptyEnds(mapped, [f]);
    SpreadOverSameKeys([], m, [f], mapped);
  }

  /** The filtered entries of a manifest hold no `undefined`. */
  lemma FilterKeepsDefined(m: Object, filters: FilterMap)
    requires JsonObject(m)
    ensures forall i :: 0 <= i < |FilterFields(m, filters)| ==> FilterFields(m, filters)[i].value != Undefined
  {
    var r := FilterFields(m, filters);
    forall i | 0 <= i < |r| ensures r[i].value != Undefined {
      assert r[i] == Field(m[i].key, FilterValue(m[i].key, m[i].value, filters));
    }
  }

  /** The publish manifest is the filtered manifest, key for key and in the
      same order. Under an existing `version` key it keeps the ORIGINAL
      value, because the mapped entries spread after `version: newVersion`
      carry it; only a manifest without `version` gains `newVersion`, as its
      last key (unless it is `undefined`, which JSON leaves out). */
  lemma PublishManifestIsFilteredCopy(m: Object, newVersion: Value, filters: FilterMap)
    requires JsonObject(m)
    ensures PublishManifest(m, newVersion, filters)
         == FilterFields(m, filters)
            + (if "version" in Keys(m) || newVersion == Undefined then [] else [Field("version", newVersion)])
  {
    var mapped := FilterFields(m, filters);
    FilterKeepsDefined(m, filters);
    if "version" in Keys(m) {
      PublishObjectWithVersion(m, newVersion, filters);
      EmptyEnds(mapped, []);
    } else {
      PublishObjectWithoutVersion(m, newVersion, filters);
      var f := Field("version", newVersion);
      if newVersion == Undefined {
        StringifyDropsLast(mapped, "version");
        EmptyEnds(mapped, []);
      } else {
        assert forall i :: 0 <= i < |mapped + [f]| ==> (mapped + [f])[i].value != Undefined;
      }
    }
  }

  /** Distinctness depends on the keys alone. */
  lemma DistinctByKeys(a: Object, b: Object)
    requires DistinctKeys(a) && Keys(a) == Keys(b)
    ensures DistinctKeys(b)
  {
    forall i, j | 0 <= i < j < |b| ensures b[i].key != b[j].key {
      assert Keys(a)[i] == a[i].key && Keys(a)[j] == a[j].key;
      assert Keys(b)[i] == b[i].key && Keys(b)[j] == b[j].key;
    }
  }

  /** Reading a key of the filtered entries reads the filtered value. */
  lemma {:induction false} GetFilterFields(m: Object, filters: FilterMap, k: string)
    ensures Get(FilterFields(m, filters), k) == FilterValue(k, Get(m, k), filters)
    decreases |m|
  {
    if m != [] {
      var r := FilterFields(m, filters);
      assert r[0] == Field(m[0].key, FilterValue(m[0].key, m[0].value, filters));
      assert r[1..] == FilterFields(m[1..], filters);
      GetFilterFields(m[1..], filters, k);
    }
  }

  /** An empty drop list keeps every sub-key, as the template's lists do. */
  lemma {:induction false} KeepFieldsNothingDropped(fs: seq<Field>)
    ensures KeepFields(fs, []) == fs
    decreases |fs|
  {
    if fs != [] {
      KeepFieldsNothingDropped(fs[1..]);
      SeqSplit(fs);
    }
  }

  /** The publish manifest, field by field: the manifest's keys in their
      order (plus `version` last when it was missing), every property listed
      in the filter map that holds an object or array reduced to its sub-keys
      not on the list, and every other property as it was. */
  lemma PublishManifestFields(m: Object, newVersion: Value, filters: FilterMap)
    requires JsonObject(m)
    ensures Keys(PublishManifest(m, newVersion, filters))
         == Keys(m) + (if "version" in Keys(m) || newVersion == Undefined then [] else ["version"])
    ensures forall i :: 0 <= i < |m| ==> PublishManifest(m, newVersion, filters)[i].key == m[i].key
    ensures forall i :: 0 <= i < |m| && DropList(filters, m[i].key).Some? && IsObject(m[i].value) ==>
              PublishManifest(m, newVersion, filters)[i].value
              == Obj(KeepFields(Entries(m[i].value), DropList(filters, m[i].key).value))
    ensures forall i :: 0 <= i < |m| && !(DropList(filters, m[i].key).Some? && IsObject(m[i].value)) ==>
              PublishManifest(m, newVersion, filters)[i].value == m[i].value
  {
    var mapped := FilterFields(m, filters);
    PublishManifestIsFilteredCopy(m, newVersion, filters);
    FilterFieldsKeys(m, filters);
    var p := PublishManifest(m, newVersion, filters);
    if !("version" in Keys(m) || newVersion == Undefined) {
      KeysAppend(mapped, Field("version", newVersion));
    } else {
      EmptyEnds(mapped, []);
    }
    forall i | 0 <= i < |m| ensures p[i] == mapped[i] {
    }
  }

  /** Lines 224-236: when the manifest already has a `version`, the publish manifest keeps the ORIGINAL value (filtered
      like any other property), whatever `newVersion` is; only without one
      does it read `newVersion`. */
  lemma PublishedVersion(m: Object, newVersion: Value, filters: FilterMap)
    requires JsonObject(m)
    ensures "version" in Keys(m) ==>
              Get(PublishManifest(m, newVersion, filters), "version")
              == FilterValue("version", Get(m, "version"), filters)
    ensures "version" in Keys(m) && Get(m, "version").Str? ==>
              Get(PublishManifest(m, newVersion, filters), "version") == Get(m, "version")
    ensures "version" !in Keys(m) ==>
              Get(PublishManifest(m, newVersion, filters), "version") == newVersion
  {
    var mapped := FilterFields(m, filters);
    PublishManifestIsFilteredCopy(m, newVersion, filters);
    GetFilterFields(m, filters, "version");
    if "version" in Keys(m) {
      EmptyEnds(mapped, []);
    } else {
      FilterFieldsKeys(m, filters);
      AssignFacts(mapped, "version", newVersion);
      if newVersion == Undefined {
        EmptyEnds(mapped, []);
      }
    }
  }

  /** The published version is stale: a manifest at 1.2.3 bumped to 1.2.4
      is published as 1.2.3 while the source manifest is rewritten to 1.2.4. */
  lemma PublishedVersionIsStale()
    ensures var m := [Field("name", Str("pkg")), Field("version", Str("1.2.3"))];
            var w := PackageJsonWrites(m, Str("1.2.4"), [], true);
            Get(w.publish, "version") == Str("1.2.3")
            && w.source.Some? && Get(w.source.value, "version") == Str("1.2.4")
  {
    var m := [Field("name", Str("pkg")), Field("version", Str("1.2.3"))];
    assert Keys(m) == ["name", "version"];
    PublishedVersion(m, Str("1.2.4"), []);
    SourceRewrite(m, Str("1.2.4"));
  }

  /** Values that are all defined stay defined after assigning a defined value. */
  lemma {:induction false} AssignKeepsDefined(obj: Object, k: string, v: Value)
    requires v != Undefined
    requires forall i :: 0 <= i < |obj| ==> obj[i].value != Undefined
    ensures forall i :: 0 <= i < |Assign(obj, k, v)| ==> Assign(obj, k, v)[i].value != Undefined
    decreases |obj|
  {
    if obj != [] && obj[0].key != k {
      AssignKeepsDefined(obj[1..], k, v);
      var r := Assign(obj, k, v);
      assert forall i :: 1 <= i < |r| ==> r[i] == Assign(obj[1..], k, v)[i - 1];
    }
  }

  /** The source manifest written back at line 245 is the manifest with
      `version` set to the new string and nothing else changed: the same
      keys in the same order (with `version` appended if it was missing)
      and every other property as it was. */
  lemma SourceRewrite(m: Object, newVersion: Value)
    requires JsonObject(m) && newVersion.Str?
    ensures "version" in Keys(m) ==> Keys(RewrittenSource(m, newVersion)) == Keys(m)
    ensures "version" !in Keys(m) ==> RewrittenSource(m, newVersion) == m + [Field("version", newVersion)]
    ensures Get(RewrittenSource(m, newVersion), "version") == newVersion
    ensures forall k :: k != "version" ==> Get(RewrittenSource(m, newVersion), k) == Get(m, k)
  {
    AssignFacts(m, "version", newVersion);
    AssignKeepsDefined(m, "version", newVersion);
  }
}
