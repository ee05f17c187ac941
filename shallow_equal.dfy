/** The shallow comparator `shallowEqual(obj1 = {}, obj2 = {})` of src/App.js:
    a relation on props records, the loop that decides it, and what it does and
    does not promise. */
module ShallowCompare {
  import opened Values

  /** A missing argument takes the default parameter `{}`. */
  function OrEmpty(obj: Option<Record>): (r: Record)
    ensures obj.None? ==> |r| == 0
    ensures obj.Some? ==> r == obj.value
  {
    if obj.Some? then obj.value else map[]
  }

  /** What `shallowEqual` decides: the two records have as many keys, and every key
      of `a` reads the same value (`===`) in `b`. The key sets themselves are never
      compared, so a key of `a` bound to `undefined` is matched by a key `b` lacks. */
  predicate ShallowlyEqual(a: Record, b: Record): (equal: bool)
    ensures equal ==> forall key :: key in a && a[key] != Undefined ==> key in b
  {
    |a| == |b| && forall key :: key in a ==> a[key] == Get(b, key)
  }

  /** The comparator as written: count the keys, then walk the keys of `obj1` and
      stop at the first one whose values differ. The walk visits the keys in some
      order; which one does not change the answer. */
  method ShallowEqual(obj1: Option<Record>, obj2: Option<Record>) returns (equal: bool)
    ensures equal == ShallowlyEqual(OrEmpty(obj1), OrEmpty(obj2))
  {
    var a, b := OrEmpty(obj1), OrEmpty(obj2);
    if |a| != |b| {
      return false;
    }
    var todo := a.Keys;
    while todo != {}
      invariant todo <= a.Keys
      invariant forall key :: key in a && key !in todo ==> a[key] == Get(b, key)
      decreases todo
    {
      var key :| key in todo;
      if a[key] != Get(b, key) {
        return false;
      }
      todo := todo - {key};
    }
    return true;
  }

  /** Records with different key counts are never shallowly equal. */
  lemma CountMismatchUnequal(a: Record, b: Record)
    requires |a| != |b|
    ensures !ShallowlyEqual(a, b)
  {
  }

  /** A missing argument equals only another missing argument or an empty record. */
  lemma MissingArgument(obj: Option<Record>)
    ensures ShallowlyEqual(OrEmpty(None), OrEmpty(obj)) <==> obj.None? || obj.value == map[]
    ensures ShallowlyEqual(OrEmpty(obj), OrEmpty(None)) <==> obj.None? || obj.value == map[]
  {
  }

  /** One key of `a` whose value differs (`!==`) from what `b` holds there makes the
      records unequal. */
  lemma ValueMismatchUnequal(a: Record, b: Record, key: string)
    requires key in a && a[key] != Get(b, key)
    ensures !ShallowlyEqual(a, b)
  {
  }

  /** Objects compare by identity: two distinct objects under the same key make the
      records unequal, whatever those objects contain. */
  lemma DistinctReferencesUnequal(a: Record, b: Record, key: string)
    requires key in a && key in b && a[key].Ref? && b[key].Ref?
    requires a[key].id != b[key].id
    ensures !ShallowlyEqual(a, b)
  {
  }

  /** Same key set and the same values under every key: shallowly equal. Maps carry
      no key order, so insertion order cannot matter. */
  lemma SameEntriesEqual(a: Record, b: Record)
    requires a.Keys == b.Keys
    requires forall key :: key in a ==> a[key] == b[key]
    ensures ShallowlyEqual(a, b)
  {
  }

  /** Every record is shallowly equal to itself. */
  lemma Reflexive(a: Record)
    ensures ShallowlyEqual(a, a)
  {
  }

  /** A subset with as many elements as its superset is the whole superset. */
  lemma SubsetOfSameSize<T>(s: set<T>, t: set<T>)
    requires s <= t && |s| == |t|
    ensures s == t
  {
    assert s * t == s;
    assert s + t == t;
    assert |t - s| == 0;
  }

  /** When no key of `a` is bound to `undefined`, shallow equality is exactly equality
      of records: same key set, same value under each key. */
  lemma EqualIffSameRecord(a: Record, b: Record)
    requires NoUndefined(a)
    ensures ShallowlyEqual(a, b) <==> a == b
  {
    if ShallowlyEqual(a, b) {
      assert a.Keys <= b.Keys by {
        forall key | key in a ensures key in b {
          assert a[key] != Undefined;
        }
      }
      SubsetOfSameSize(a.Keys, b.Keys);
    }
  }

  /** For records without `undefined` values the comparator is symmetric. */
  lemma SymmetricWithoutUndefined(a: Record, b: Record)
    requires NoUndefined(a) && NoUndefined(b)
    ensures ShallowlyEqual(a, b) == ShallowlyEqual(b, a)
  {
    EqualIffSameRecord(a, b);
    EqualIffSameRecord(b, a);
  }

  /** Without that restriction it is neither symmetric nor a comparison of key sets:
      `{x: undefined}` is shallowly equal to `{y: 1}`, but not the other way round. */
  lemma UndefinedMatchesMissingKey()
    ensures var a, b := map["x" := Undefined], map["y" := Prim(Int(1))];
            ShallowlyEqual(a, b) && !ShallowlyEqual(b, a) && a.Keys != b.Keys
  {
    var a, b := map["x" := Undefined], map["y" := Prim(Int(1))];
    assert a.Keys == {"x"};
    assert "y" in b;
  }
}
