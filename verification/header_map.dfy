/** The response's `LinkedHashMap<String, String>` of headers: entries in
    insertion order, where `put` of a new key appends it and `put` of a
    present key replaces the value in place. */
module HeaderMap {
  import opened Base

  datatype Entry = Entry(key: string, value: string)

  /** The keys in iteration order. */
  function Keys(es: seq<Entry>): (ks: seq<string>)
    ensures |ks| == |es|
    ensures forall i :: 0 <= i < |es| ==> ks[i] == es[i].key
  {
    seq(|es|, i requires 0 <= i < |es| => es[i].key)
  }

  /** A map never holds a key twice. */
  predicate DistinctKeys(es: seq<Entry>) {
    forall i, j :: 0 <= i < j < |es| ==> es[i].key != es[j].key
  }

  /** The position of `k`, if it is present. */
  function Find(es: seq<Entry>, k: string): (r: Option<nat>)
    ensures r.Some? ==> r.value < |es| && es[r.value].key == k
    ensures r.Some? ==> forall j :: 0 <= j < r.value ==> es[j].key != k
    ensures r.None? <==> forall j :: 0 <= j < |es| ==> es[j].key != k
  {
    if |es| == 0 then None
    else if es[0].key == k then Some(0)
    else match Find(es[1..], k)
      case None => None
      case Some(i) => Some(i + 1)
  }

  /** The first entry with key `k` is the one `Find` reports. */
  lemma FindIs(es: seq<Entry>, k: string, i: nat)
    requires i < |es| && es[i].key == k
    requires forall j :: 0 <= j < i ==> es[j].key != k
    ensures Find(es, k) == Some(i)
  {
  }

  /** `get(k)`: the value stored under `k`. */
  function Get(es: seq<Entry>, k: string): Option<string> {
    match Find(es, k)
    case None => None
    case Some(i) => Some(es[i].value)
  }

  /** `put(k, v)`. */
  function Put(es: seq<Entry>, k: string, v: string): (r: seq<Entry>)
    ensures Find(es, k).None? ==> r == es + [Entry(k, v)]
    ensures Find(es, k).Some? ==>
      && |r| == |es|
      && r[Find(es, k).value] == Entry(k, v)
      && forall j :: 0 <= j < |es| && j != Find(es, k).value ==> r[j] == es[j]
  {
    match Find(es, k)
    case None => es + [Entry(k, v)]
    case Some(i) => es[i := Entry(k, v)]
  }

  /** After `put(k, v)`, `get(k)` is `v` and every other key reads as before. */
  lemma PutGet(es: seq<Entry>, k: string, v: string, k': string)
    ensures Get(Put(es, k, v), k') == if k' == k then Some(v) else Get(es, k')
  {
    var r := Put(es, k, v);
    match Find(es, k)
    case None =>
      if k' == k {
        FindIs(r, k', |es|);
      } else {
        assert r[|es|].key != k';
        match Find(es, k')
        case None =>
        case Some(i) =>
          FindIs(r, k', i);
      }
    case Some(i) =>
      if k' == k {
        FindIs(r, k', i);
      } else {
        match Find(es, k')
        case None =>
        case Some(j) =>
          FindIs(r, k', j);
      }
  }

  /** The key order after `put(k, _)`: the same keys, with `k` last if it was new. */
  function Added(ks: seq<string>, k: string): seq<string> {
    if k in ks then ks else ks + [k]
  }

  /** Key order after `put`: unchanged when the key was present, otherwise the
      new key comes last. */
  lemma PutKeyOrder(es: seq<Entry>, k: string, v: string)
    ensures k in Keys(es) ==> Keys(Put(es, k, v)) == Keys(es)
    ensures k !in Keys(es) ==> Keys(Put(es, k, v)) == Keys(es) + [k]
    ensures Keys(Put(es, k, v)) == Added(Keys(es), k)
  {
    if k in Keys(es) {
      var i :| 0 <= i < |es| && Keys(es)[i] == k;
      assert es[i].key == k;
    }
  }

  /** Key order only ever grows at the end. */
  lemma KeysPrefixTransitive(a: seq<string>, b: seq<string>, c: seq<string>)
    requires a <= b && b <= c
    ensures a <= c
  {
    assert a == b[..|a|] && b == c[..|b|];
    assert c[..|b|][..|a|] == c[..|a|];
  }

  /** `put` keeps the keys distinct. */
  lemma PutDistinct(es: seq<Entry>, k: string, v: string)
    requires DistinctKeys(es)
    ensures DistinctKeys(Put(es, k, v))
  {
  }
}
