/** The few Redis data types and commands the run queue relies on: hashes and sorted sets that
    vanish when they become empty, absolute key expiry, and the (score, member) order of sorted sets. */
module Redis {

  datatype Option<+T> = None | Some(value: T)

  /** A hash, or a sorted set when V is int (the scores). The key exists exactly when it has members;
      px is the absolute expiry of the key in milliseconds. */
  datatype Hash<V> = Hash(m: map<string, V>, px: Option<int>)

  function Absent<V>(): Hash<V> { Hash(map[], None) }

  function HGet<V>(h: Hash<V>, key: string): Option<V> {
    if key in h.m then Some(h.m[key]) else None
  }

  /** HSET and ZADD: an existing key keeps its expiry, a new key has none. */
  function HSet<V>(h: Hash<V>, key: string, value: V): Hash<V> {
    Hash(h.m[key := value], if h.m == map[] then None else h.px)
  }

  /** HDEL and ZREM: removing the last member removes the key together with its expiry. */
  function HDel<V>(h: Hash<V>, key: string): Hash<V> {
    var rest := map k | k in h.m && k != key :: h.m[k];
    Hash(rest, if rest == map[] then None else h.px)
  }

  /** PEXPIREAT: no effect on a missing key; a time that has already come deletes the key. */
  function PExpireAt<V>(h: Hash<V>, at: int, now: int): Hash<V> {
    if h.m == map[] || at <= now then Absent() else Hash(h.m, Some(at))
  }

  /** What a command issued at time now sees of a key: an expired key reads as absent. */
  function Visible<V>(h: Hash<V>, now: int): Hash<V> {
    if h.px.Some? && h.px.value < now then Absent() else h
  }

  /** Members are compared as byte strings when scores are equal. */
  predicate StringLess(a: string, b: string) {
    b != [] && (a == [] || a[0] < b[0] || (a[0] == b[0] && StringLess(a[1..], b[1..])))
  }

  predicate Before(z: map<string, int>, a: string, b: string)
    requires a in z && b in z
  {
    z[a] < z[b] || (z[a] == z[b] && StringLess(a, b))
  }

  /** id is the member ZPOPMIN would return. */
  predicate IsFirst(z: map<string, int>, id: string) {
    id in z && forall k :: k in z && k != id ==> Before(z, id, k)
  }

  lemma {:induction false} StringLessTotal(a: string, b: string)
    ensures StringLess(a, b) || a == b || StringLess(b, a)
    ensures !(StringLess(a, b) && StringLess(b, a))
    ensures !StringLess(a, a)
  {
    if a != [] && b != [] {
      StringLessTotal(a[1..], b[1..]);
      StringLessTotal(a[1..], a[1..]);
      assert a[0] == b[0] && a[1..] == b[1..] ==> a == [a[0]] + a[1..] && b == [b[0]] + b[1..] && a == b;
    } else if a != [] {
      StringLessTotal(a[1..], a[1..]);
    }
  }

  /** One string comes before another when it is a proper prefix of it, or has the smaller character at the first
      position where they differ. */
  ghost predicate ComesBefore(a: string, b: string) {
    (|a| < |b| && b[..|a|] == a) || exists i :: 0 <= i < |a| && i < |b| && a[..i] == b[..i] && a[i] < b[i]
  }

  lemma ComesBeforeCons(c: char, a: string, b: string)
    ensures ComesBefore([c] + a, [c] + b) <==> ComesBefore(a, b)
  {
    var x, y := [c] + a, [c] + b;
    forall i | 0 <= i <= |a| && i <= |b| ensures x[..i + 1] == y[..i + 1] <==> a[..i] == b[..i] {
      assert x[..i + 1] == [c] + a[..i] && y[..i + 1] == [c] + b[..i];
      assert x[..i + 1] == y[..i + 1] ==> x[..i + 1][1..] == y[..i + 1][1..];
    }
    assert x[..|x|] == x && a[..|a|] == a;
    if i :| 0 <= i < |x| && i < |y| && x[..i] == y[..i] && x[i] < y[i] {
      assert a[..i - 1] == b[..i - 1] && a[i - 1] < b[i - 1];
    }
    if i :| 0 <= i < |a| && i < |b| && a[..i] == b[..i] && a[i] < b[i] {
      assert x[..i + 1] == y[..i + 1] && x[i + 1] < y[i + 1];
    }
  }

  lemma ComesBeforeFirst(a: string, b: string)
    requires a == [] || b == [] || a[0] != b[0]
    ensures ComesBefore(a, b) <==> b != [] && (a == [] || a[0] < b[0])
  {
    if a != [] && b != [] {
      forall i | 0 < i <= |a| && i <= |b| ensures a[..i] != b[..i] { assert a[..i][0] != b[..i][0]; }
      assert a[..|a|] == a && a[..0] == b[..0];
    }
  }

  lemma {:induction false} StringLessMeans(a: string, b: string)
    ensures StringLess(a, b) <==> ComesBefore(a, b)
  {
    hide ComesBefore;
    if a != [] && b != [] && a[0] == b[0] {
      StringLessMeans(a[1..], b[1..]);
      ComesBeforeCons(a[0], a[1..], b[1..]);
      assert a == [a[0]] + a[1..] && b == [a[0]] + b[1..];
    } else {
      ComesBeforeFirst(a, b);
    }
  }

  lemma {:induction false} StringLessTransitive(a: string, b: string, c: string)
    requires StringLess(a, b) && StringLess(b, c)
    ensures StringLess(a, c)
  {
    if a != [] && a[0] == b[0] && b[0] == c[0] {
      StringLessTransitive(a[1..], b[1..], c[1..]);
    }
  }

  lemma {:induction false} HasFirst(z: map<string, int>)
    requires z != map[]
    ensures exists id :: IsFirst(z, id)
    decreases |z|
  {
    var k: string :| k in z;
    var rest := map x | x in z && x != k :: z[x];
    assert rest.Keys == z.Keys - {k};
    if rest == map[] {
      assert z.Keys == rest.Keys + {k};
      assert IsFirst(z, k);
    } else {
      HasFirst(rest);
      var id :| IsFirst(rest, id);
      StringLessTotal(k, id);
      if Before(z, k, id) {
        forall x | x in z && x != k ensures Before(z, k, x) {
          if x != id {
            assert Before(rest, id, x);
            if z[k] == z[id] == z[x] { StringLessTransitive(k, id, x); }
          }
        }
        assert IsFirst(z, k);
      } else {
        forall x | x in z && x != id ensures Before(z, id, x) {
          if x != k { assert Before(rest, id, x); }
        }
        assert IsFirst(z, id);
      }
    }
  }

  lemma FirstUnique(z: map<string, int>)
    ensures forall a, b :: IsFirst(z, a) && IsFirst(z, b) ==> a == b
  {
    forall a, b | IsFirst(z, a) && IsFirst(z, b) ensures a == b {
      StringLessTotal(a, b);
    }
  }

  /** The least member of a sorted set in (score, member) order. */
  function First(z: map<string, int>): (id: string)
    requires z != map[]
    ensures IsFirst(z, id)
  {
    HasFirst(z);
    FirstUnique(z);
    var id :| id in z && IsFirst(z, id);
    id
  }

  /** Every other member has a higher score, or the same score and comes later as a string. */
  lemma FirstMeans(z: map<string, int>, k: string)
    requires k in z && k != First(z)
    ensures z[First(z)] < z[k] || (z[First(z)] == z[k] && ComesBefore(First(z), k))
  {
    hide StringLess, ComesBefore;
    StringLessMeans(First(z), k);
    assert Before(z, First(z), k);
  }

  function Rest(z: map<string, int>): map<string, int>
    requires z != map[]
  {
    map k | k in z && k != First(z) :: z[k]
  }

  /** ZRANGEBYSCORE -inf hi LIMIT 0 limit. */
  function Due(z: map<string, int>, hi: int, limit: nat): seq<string>
    decreases limit
  {
    if limit == 0 || z == map[] || z[First(z)] > hi then []
    else [First(z)] + Due(Rest(z), hi, limit - 1)
  }

  ghost predicate Distinct<T>(s: seq<T>) {
    forall i, j :: 0 <= i < j < |s| ==> s[i] != s[j]
  }

  /** The range holds at most limit distinct members that are due, ... */
  lemma {:induction false} DueMembers(z: map<string, int>, hi: int, limit: nat)
    ensures |Due(z, hi, limit)| <= limit && Distinct(Due(z, hi, limit))
    ensures forall k :: k in Due(z, hi, limit) ==> k in z && z[k] <= hi
    decreases limit
  {
    if limit != 0 && z != map[] && z[First(z)] <= hi {
      DueMembers(Rest(z), hi, limit - 1);
      assert First(z) !in Rest(z);
    }
  }

  /** ... in the order of the set, ... */
  lemma {:induction false} DueOrdered(z: map<string, int>, hi: int, limit: nat, i: nat, j: nat)
    requires i < j < |Due(z, hi, limit)|
    requires forall k :: k in Due(z, hi, limit) ==> k in z
    ensures Before(z, Due(z, hi, limit)[i], Due(z, hi, limit)[j])
    decreases limit
  {
    var tail := Due(Rest(z), hi, limit - 1);
    DueMembers(Rest(z), hi, limit - 1);
    assert Due(z, hi, limit)[j] == tail[j - 1];
    assert tail[j - 1] in tail;
    if i > 0 {
      DueOrdered(Rest(z), hi, limit - 1, i - 1, j - 1);
      assert tail[i - 1] in tail;
    }
  }

  /** ... and a due member is left out only when the range is full. */
  lemma {:induction false} DueMisses(z: map<string, int>, hi: int, limit: nat, k: string)
    requires k in z && z[k] <= hi && k !in Due(z, hi, limit)
    ensures |Due(z, hi, limit)| == limit
    decreases limit
  {
    if limit != 0 {
      assert z[First(z)] <= hi;
      assert Due(z, hi, limit) == [First(z)] + Due(Rest(z), hi, limit - 1);
      assert First(z) in Due(z, hi, limit);
      assert k in Rest(z);
      DueMisses(Rest(z), hi, limit - 1, k);
    }
  }
}
