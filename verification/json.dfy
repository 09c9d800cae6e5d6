/**
  The value tree of src/parser.rs (`JsonVal`, `Number`) and the insertion-ordered map that
  holds an object's members (an `IndexMap<String, JsonVal>` in the source).
 */
module Json {
  import opened Results

  type U64 = x: int | 0 <= x < 0x1_0000_0000_0000_0000
  type I64 = x: int | -0x8000_0000_0000_0000 <= x < 0x8000_0000_0000_0000

  /** A `Float` keeps the literal's text: the f64 value itself is not modelled. */
  datatype Number =
    | UnsignedInt(u: U64)
    | SignedInt(i: I64)
    | Float(text: string)

  datatype JsonVal =
    | Null
    | Number(num: Number)
    | String(str: string)
    | Boolean(b: bool)
    | Array(items: seq<JsonVal>)
    | Object(members: seq<Member>)

  /** One entry of an object, in the order the map iterates it. */
  datatype Member = Member(key: string, value: JsonVal)

  function Keys(ms: seq<Member>): seq<string>
  {
    seq(|ms|, i requires 0 <= i < |ms| => ms[i].key)
  }

  /** The keys of an `IndexMap` are pairwise distinct. */
  predicate DistinctKeys(ms: seq<Member>)
  {
    forall i, j | 0 <= i < j < |ms| :: ms[i].key != ms[j].key
  }

  /** Position of the entry with key `k`: the first one, and with distinct keys the only one. */
  function Find(ms: seq<Member>, k: string): (r: Option<nat>)
    ensures r.None? <==> k !in Keys(ms)
    ensures r.Some? ==> r.value < |ms| && ms[r.value].key == k
    ensures r.Some? ==> forall j | 0 <= j < r.value :: ms[j].key != k
    decreases |ms|
  {
    if |ms| == 0 then None
    else
      assert Keys(ms) == [ms[0].key] + Keys(ms[1..]);
      if ms[0].key == k then Some(0)
      else
        match Find(ms[1..], k)
        case None => None
        case Some(i) => Some(i + 1)
  }

  /** `IndexMap::get` */
  function Lookup(ms: seq<Member>, k: string): Option<JsonVal>
  {
    match Find(ms, k)
    case None => None
    case Some(i) => Some(ms[i].value)
  }

  /** `IndexMap::insert`: a new key is appended; an existing key keeps its position and
      takes the new value. */
  function Insert(ms: seq<Member>, k: string, v: JsonVal): (r: seq<Member>)
    requires DistinctKeys(ms)
    ensures DistinctKeys(r)
    ensures k !in Keys(ms) ==> r == ms + [Member(k, v)]
    ensures k in Keys(ms) ==> |r| == |ms| && Keys(r) == Keys(ms)
    ensures forall i | 0 <= i < |ms| && ms[i].key != k :: r[i] == ms[i]
    ensures forall i | 0 <= i < |r| && r[i].key == k :: r[i].value == v
  {
    match Find(ms, k)
    case None =>
      var r := ms + [Member(k, v)];
      assert forall i | 0 <= i < |ms| :: ms[i].key != k by {
        forall i | 0 <= i < |ms| ensures ms[i].key != k {
          assert Keys(ms)[i] == ms[i].key;
        }
      }
      r
    case Some(i) =>
      var r := ms[i := Member(k, v)];
      assert Keys(r) == Keys(ms);
      r
  }

  /** Inserting never reorders or drops the keys already present. */
  lemma InsertExtendsKeys(ms: seq<Member>, k: string, v: JsonVal)
    requires DistinctKeys(ms)
    ensures Keys(ms) <= Keys(Insert(ms, k, v))
  {
    if k !in Keys(ms) {
      assert Keys(Insert(ms, k, v)) == Keys(ms) + [k];
    }
  }

  /** Inserting makes `k` map to `v` and leaves every other key's value alone. */
  lemma InsertLookup(ms: seq<Member>, k: string, v: JsonVal)
    requires DistinctKeys(ms)
    ensures Lookup(Insert(ms, k, v), k) == Some(v)
    ensures forall k' | k' != k :: Lookup(Insert(ms, k, v), k') == Lookup(ms, k')
  {
    var r := Insert(ms, k, v);
    assert k in Keys(r) by {
      if k in Keys(ms) {
      } else {
        assert Keys(r)[|ms|] == k;
      }
    }
    forall k' | k' != k
      ensures Lookup(r, k') == Lookup(ms, k')
    {
      match Find(ms, k')
      case None =>
        assert forall j | 0 <= j < |ms| :: ms[j].key != k' by {
          forall j | 0 <= j < |ms| ensures ms[j].key != k' {
            assert Keys(ms)[j] == ms[j].key;
          }
        }
        assert forall j | 0 <= j < |r| :: Keys(r)[j] != k' by {
          forall j | 0 <= j < |r| ensures Keys(r)[j] != k' {
            if j < |ms| && ms[j].key != k {
              assert r[j] == ms[j];
            }
          }
        }
      case Some(i) =>
        assert r[i] == ms[i];
        assert Keys(r)[i] == k';
    }
  }

  /** The object loop of `parse_object`: members inserted, left to right, into the map
      built so far. */
  function InsertAll(acc: seq<Member>, pairs: seq<Member>): (r: seq<Member>)
    requires DistinctKeys(acc)
    ensures DistinctKeys(r)
    decreases |pairs|
  {
    if |pairs| == 0 then acc
    else InsertAll(Insert(acc, pairs[0].key, pairs[0].value), pairs[1..])
  }
}

/** What the object built by `parse_object`'s loop contains, stated without reference to
    `Insert`: first-appearance order, last write wins, one entry per distinct key. */
module ObjectSemantics {
  import opened Results
  import opened Json

  /** The value the last entry with key `k` carries. */
  function LastValue(ms: seq<Member>, k: string): JsonVal
    requires k in Keys(ms)
  {
    var n := |ms| - 1;
    if ms[n].key == k then ms[n].value
    else
      assert Keys(ms) == Keys(ms[..n]) + [ms[n].key];
      LastValue(ms[..n], k)
  }

  function KeySet(ms: seq<Member>): set<string>
  {
    set k | k in Keys(ms)
  }

  /** Entries appear in the order in which their keys first appear in `all`. */
  predicate FirstAppearanceOrder(r: seq<Member>, all: seq<Member>)
  {
    forall i, j | 0 <= i < j < |r| ::
      Find(all, r[i].key).Some? && Find(all, r[j].key).Some? &&
      Find(all, r[i].key).value < Find(all, r[j].key).value
  }

  lemma KeysAppend(a: seq<Member>, m: Member)
    ensures Keys(a + [m]) == Keys(a) + [m.key]
  {
  }

  lemma {:induction false} FindAppend(a: seq<Member>, m: Member, k: string)
    ensures k in Keys(a) ==> Find(a + [m], k) == Find(a, k)
    ensures k !in Keys(a) && m.key == k ==> Find(a + [m], k) == Some(|a|)
  {
    KeysAppend(a, m);
    var f := Find(a + [m], k);
    if k in Keys(a) {
      var i := Find(a, k).value;
      assert (a + [m])[i] == a[i];
      assert f.Some?;
    } else if m.key == k {
      assert forall j | 0 <= j < |a| :: (a + [m])[j].key != k by {
        forall j | 0 <= j < |a| ensures (a + [m])[j].key != k {
          assert Keys(a)[j] == a[j].key;
        }
      }
      assert f.Some?;
    }
  }

  lemma {:induction false} InsertAllSnoc(acc: seq<Member>, pairs: seq<Member>, p: Member)
    requires DistinctKeys(acc)
    ensures InsertAll(acc, pairs + [p]) == Insert(InsertAll(acc, pairs), p.key, p.value)
    decreases |pairs|
  {
    if |pairs| == 0 {
      assert pairs + [p] == [p];
    } else {
      assert (pairs + [p])[1..] == pairs[1..] + [p];
      InsertAllSnoc(Insert(acc, pairs[0].key, pairs[0].value), pairs[1..], p);
    }
  }

  /** Every key of `r` occurs in `all`, and every key of `all` occurs in `r`. */
  ghost predicate SameKeys(r: seq<Member>, all: seq<Member>)
  {
    forall k :: k in Keys(r) <==> k in Keys(all)
  }

  /** Each entry of `r` carries the value of the last entry of `all` with its key. */
  predicate LastWriteWins(r: seq<Member>, all: seq<Member>)
  {
    forall i | 0 <= i < |r| :: r[i].key in Keys(all) && r[i].value == LastValue(all, r[i].key)
  }

  lemma StepKeys(r0: seq<Member>, pre: seq<Member>, p: Member)
    requires DistinctKeys(r0) && SameKeys(r0, pre)
    ensures SameKeys(Insert(r0, p.key, p.value), pre + [p])
  {
    KeysAppend(pre, p);
    KeysAppend(r0, p);
  }

  /** Keys already present in `pre` keep their first position when `p` is appended. */
  lemma FindPreserved(pre: seq<Member>, p: Member)
    ensures forall x | x in Keys(pre) :: Find(pre + [p], x) == Find(pre, x)
  {
    forall x | x in Keys(pre)
      ensures Find(pre + [p], x) == Find(pre, x)
    {
      FindAppend(pre, p, x);
    }
  }

  lemma KeysOfMembers(r0: seq<Member>, pre: seq<Member>)
    requires SameKeys(r0, pre)
    ensures forall i | 0 <= i < |r0| :: r0[i].key in Keys(pre)
  {
    forall i | 0 <= i < |r0| ensures r0[i].key in Keys(pre) {
      assert Keys(r0)[i] == r0[i].key;
    }
  }

  lemma StepOrderExisting(r0: seq<Member>, pre: seq<Member>, p: Member)
    requires DistinctKeys(r0) && SameKeys(r0, pre) && FirstAppearanceOrder(r0, pre)
    requires p.key in Keys(r0)
    ensures FirstAppearanceOrder(Insert(r0, p.key, p.value), pre + [p])
  {
    var r := Insert(r0, p.key, p.value);
    var all := pre + [p];
    FindPreserved(pre, p);
    KeysOfMembers(r0, pre);
    forall i, j | 0 <= i < j < |r|
      ensures Find(all, r[i].key).Some? && Find(all, r[j].key).Some?
      ensures Find(all, r[i].key).value < Find(all, r[j].key).value
    {
      assert Keys(r)[i] == Keys(r0)[i];
      assert Keys(r)[j] == Keys(r0)[j];
    }
  }

  lemma StepOrderNew(r0: seq<Member>, pre: seq<Member>, p: Member)
    requires DistinctKeys(r0) && SameKeys(r0, pre) && FirstAppearanceOrder(r0, pre)
    requires p.key !in Keys(r0)
    ensures FirstAppearanceOrder(Insert(r0, p.key, p.value), pre + [p])
  {
    var r := Insert(r0, p.key, p.value);
    var all := pre + [p];
    FindPreserved(pre, p);
    KeysOfMembers(r0, pre);
    FindAppend(pre, p, p.key);
    assert r == r0 + [p];
    forall i, j | 0 <= i < j < |r|
      ensures Find(all, r[i].key).Some? && Find(all, r[j].key).Some?
      ensures Find(all, r[i].key).value < Find(all, r[j].key).value
    {
      assert r[i] == r0[i];
      if j < |r0| {
        assert r[j] == r0[j];
      }
    }
  }

  lemma StepValues(r0: seq<Member>, pre: seq<Member>, p: Member)
    requires DistinctKeys(r0) && SameKeys(r0, pre) && LastWriteWins(r0, pre)
    ensures LastWriteWins(Insert(r0, p.key, p.value), pre + [p])
  {
    KeysAppend(pre, p);
    var r := Insert(r0, p.key, p.value);
    var all := pre + [p];
    assert all[..|pre|] == pre;
    forall i | 0 <= i < |r|
      ensures r[i].key in Keys(all) && r[i].value == LastValue(all, r[i].key)
    {
      if r[i].key != p.key {
        if p.key in Keys(r0) {
          assert Keys(r)[i] == Keys(r0)[i];
        }
        assert r[i] == r0[i];
      }
    }
  }

  lemma StepCount(r0: seq<Member>, pre: seq<Member>, p: Member)
    requires DistinctKeys(r0) && SameKeys(r0, pre) && |r0| == |KeySet(pre)|
    ensures |Insert(r0, p.key, p.value)| == |KeySet(pre + [p])|
  {
    KeysAppend(pre, p);
    if p.key in Keys(r0) {
      assert KeySet(pre + [p]) == KeySet(pre);
    } else {
      assert KeySet(pre + [p]) == KeySet(pre) + {p.key};
    }
  }

  /** The object that inserting `pairs` into an empty map yields: its keys are exactly the
      keys of `pairs`, ordered by first appearance, each carrying the value of its last
      occurrence, and there are as many entries as distinct keys. */
  lemma {:induction false} InsertAllSemantics(pairs: seq<Member>)
    ensures var r := InsertAll([], pairs);
            && SameKeys(r, pairs)
            && FirstAppearanceOrder(r, pairs)
            && LastWriteWins(r, pairs)
            && |r| == |KeySet(pairs)|
    decreases |pairs|
  {
    if |pairs| == 0 {
      assert KeySet(pairs) == {};
    } else {
      var n := |pairs| - 1;
      var pre, p := pairs[..n], pairs[n];
      assert pairs == pre + [p];
      InsertAllSemantics(pre);
      InsertAllSnoc([], pre, p);
      var r0 := InsertAll([], pre);
      StepKeys(r0, pre, p);
      if p.key in Keys(r0) {
        StepOrderExisting(r0, pre, p);
      } else {
        StepOrderNew(r0, pre, p);
      }
      StepValues(r0, pre, p);
      StepCount(r0, pre, p);
    }
  }
  /** With no repeated key, the loop of `parse_object` keeps the members exactly as given. */
  lemma {:induction false} InsertAllDistinct(acc: seq<Member>, pairs: seq<Member>)
    requires DistinctKeys(acc + pairs)
    ensures DistinctKeys(acc)
    ensures InsertAll(acc, pairs) == acc + pairs
    decreases |pairs|
  {
    assert forall i | 0 <= i < |acc| :: (acc + pairs)[i] == acc[i];
    if |pairs| > 0 {
      var p := pairs[0];
      assert p.key !in Keys(acc) by {
        forall i | 0 <= i < |acc| ensures Keys(acc)[i] != p.key {
          assert (acc + pairs)[|acc|] == p;
        }
      }
      assert (acc + [p]) + pairs[1..] == acc + pairs;
      InsertAllDistinct(acc + [p], pairs[1..]);
    }
  }
}
