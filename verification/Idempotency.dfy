/**
 generate_idempotency_key of src/telemetry_api/core/idempotency.py and the object key of the
 failure buffer.  json.dumps and SHA-256 together are any function of the canonical form with values of
 64 characters; two payloads it does not tell apart collide.
 */
module Idempotency {
  import opened TextOrder
  import StableSort

  datatype LabelValue = Text(s: string) | Whole(n: int) | Fraction(x: real) | Flag(b: bool) | Nothing

  type Label = (string, LabelValue)

  datatype Value = IntValue(n: int) | FloatValue(x: real)

  /** labels is a Python dict: its entries in insertion order. */
  datatype Payload = Payload(ts: string, tenant: string, service: string, metric: string, value: Value,
                             labels: seq<Label>)
  {
    ghost predicate Valid() {
      forall i, j :: 0 <= i < j < |labels| ==> labels[i].0 != labels[j].0
    }
  }

  datatype Canonical = Canonical(tenant: string, service: string, metric: string, ts: string, value: real,
                                 labels: seq<Label>)

  function ByName(): (Label, Label) -> bool {
    (a: Label, b: Label) => AtMost(a.0, b.0)
  }

  lemma ByNameIsOrder()
    ensures StableSort.TotalPreorder(ByName())
  {
    forall a: Label, b: Label ensures ByName()(a, b) || ByName()(b, a) {
      AtMostIsTotalOrder(a.0, b.0);
    }
    forall a: Label, b: Label, c: Label | ByName()(a, b) && ByName()(b, c) ensures ByName()(a, c) {
      AtMostIsTransitive(a.0, b.0, c.0);
    }
  }

  function NumericValue(v: Value): real {
    match v case IntValue(n) => n as real case FloatValue(x) => x
  }

  function CanonicalOf(p: Payload): Canonical {
    Canonical(p.tenant, p.service, p.metric, p.ts, NumericValue(p.value), StableSort.Sort(p.labels, ByName()))
  }

  /** hexdigest(): 64 characters, whatever is hashed. */
  ghost predicate IsDigest(hash: Canonical -> string) {
    forall c :: |hash(c)| == 64
  }

  function KeyOf(p: Payload, hash: Canonical -> string): string {
    hash(CanonicalOf(p))
  }

  // ---- When two payloads share a key ----

  /** The dict as a mapping. */
  function LabelMap(labels: seq<Label>): map<string, LabelValue> {
    if |labels| == 0 then map[]
    else LabelMap(labels[..|labels| - 1])[labels[|labels| - 1].0 := labels[|labels| - 1].1]
  }

  lemma {:induction false} LabelMapMeaning(labels: seq<Label>, name: string, value: LabelValue)
    requires forall i, j :: 0 <= i < j < |labels| ==> labels[i].0 != labels[j].0
    ensures (name, value) in labels <==> name in LabelMap(labels) && LabelMap(labels)[name] == value
    ensures name in LabelMap(labels) <==> exists i :: 0 <= i < |labels| && labels[i].0 == name
  {
    if |labels| == 0 {
    } else {
      var k := |labels| - 1;
      LabelMapMeaning(labels[..k], name, value);
      assert labels == labels[..k] + [labels[k]];
      if exists i :: 0 <= i < k && labels[i].0 == name {
        var i :| 0 <= i < k && labels[i].0 == name;
        assert labels[..k][i].0 == name;
      }
    }
  }

  lemma {:induction false} LabelOccursOnce(labels: seq<Label>, l: Label)
    requires forall i, j :: 0 <= i < j < |labels| ==> labels[i].0 != labels[j].0
    ensures multiset(labels)[l] == if l in labels then 1 else 0
  {
    if |labels| == 0 {
    } else {
      var k := |labels| - 1;
      LabelOccursOnce(labels[..k], l);
      assert labels == labels[..k] + [labels[k]];
      if l in labels[..k] {
        var i :| 0 <= i < k && labels[..k][i] == l;
        assert labels[i].0 != labels[k].0;
      }
    }
  }

  lemma SameMapSameLabels(a: seq<Label>, b: seq<Label>)
    requires forall i, j :: 0 <= i < j < |a| ==> a[i].0 != a[j].0
    requires forall i, j :: 0 <= i < j < |b| ==> b[i].0 != b[j].0
    ensures LabelMap(a) == LabelMap(b) <==> multiset(a) == multiset(b)
  {
    forall l: Label
      ensures multiset(a)[l] == if l.0 in LabelMap(a) && LabelMap(a)[l.0] == l.1 then 1 else 0
      ensures multiset(b)[l] == if l.0 in LabelMap(b) && LabelMap(b)[l.0] == l.1 then 1 else 0
    {
      LabelOccursOnce(a, l);
      LabelOccursOnce(b, l);
      LabelMapMeaning(a, l.0, l.1);
      LabelMapMeaning(b, l.0, l.1);
    }
    if multiset(a) == multiset(b) {
      forall name ensures name in LabelMap(a) <==> name in LabelMap(b)
      ensures name in LabelMap(a) ==> LabelMap(a)[name] == LabelMap(b)[name]
      {
        if name in LabelMap(a) {
          assert multiset(a)[(name, LabelMap(a)[name])] == 1;
        }
        if name in LabelMap(b) {
          assert multiset(b)[(name, LabelMap(b)[name])] == 1;
        }
      }
    }
  }

  lemma SortedLabelsMeaning(a: seq<Label>, b: seq<Label>)
    requires forall i, j :: 0 <= i < j < |a| ==> a[i].0 != a[j].0
    requires forall i, j :: 0 <= i < j < |b| ==> b[i].0 != b[j].0
    ensures StableSort.Sort(a, ByName()) == StableSort.Sort(b, ByName()) <==> LabelMap(a) == LabelMap(b)
  {
    SameMapSameLabels(a, b);
    StableSort.SortPermutes(a, ByName());
    StableSort.SortPermutes(b, ByName());
    if multiset(a) == multiset(b) {
      ByNameIsOrder();
      forall x, y | x in a && y in a && ByName()(x, y) && ByName()(y, x) ensures x == y {
        AtMostIsTotalOrder(x.0, y.0);
      }
      StableSort.SortForgetsArrival(a, b, ByName());
    }
  }

  ghost predicate SameContent(p: Payload, q: Payload) {
    && p.tenant == q.tenant && p.service == q.service && p.metric == q.metric && p.ts == q.ts
    && NumericValue(p.value) == NumericValue(q.value)
    && LabelMap(p.labels) == LabelMap(q.labels)
  }

  /** The canonical form is that of the content, in whatever order the labels came. */
  lemma SameCanonicalExactlyWhen(p: Payload, q: Payload)
    requires p.Valid() && q.Valid()
    ensures CanonicalOf(p) == CanonicalOf(q) <==> SameContent(p, q)
  {
    SortedLabelsMeaning(p.labels, q.labels);
  }

  /** A collision of the hash on the canonical forms of two payloads. */
  predicate Collide(p: Payload, q: Payload, hash: Canonical -> string) {
    CanonicalOf(p) != CanonicalOf(q) && KeyOf(p, hash) == KeyOf(q, hash)
  }

  /** Two payloads share a key exactly when their content agrees or the hash collides on them; never both. */
  lemma SameKeyExactlyWhen(p: Payload, q: Payload, hash: Canonical -> string)
    requires p.Valid() && q.Valid()
    ensures KeyOf(p, hash) == KeyOf(q, hash) <==> SameContent(p, q) || Collide(p, q, hash)
    ensures !(SameContent(p, q) && Collide(p, q, hash))
  {
    SameCanonicalExactlyWhen(p, q);
  }

  function Repeat(c: char, n: nat): (s: string)
    ensures |s| == n && forall i :: 0 <= i < n ==> s[i] == c
  {
    if n == 0 then "" else [c] + Repeat(c, n - 1)
  }

  /** There are digests, and for any two payloads one that does not collide on them. */
  lemma DigestWithoutCollision(p: Payload, q: Payload) returns (hash: Canonical -> string)
    ensures IsDigest(hash) && !Collide(p, q, hash)
  {
    var zeros, ones := Repeat('0', 64), Repeat('1', 64);
    assert zeros[0] != ones[0];
    hash := (c: Canonical) => if c == CanonicalOf(p) then zeros else ones;
  }

  // ---- Object keys of the failure buffer ----

  const DEFAULT_PREFIX := "telemetry-failures/"
  const SUFFIX := ".json"

  function PrefixOf(setting: string): string { if setting == "" then DEFAULT_PREFIX else setting }

  function DateOf(ts: string): string { if |ts| <= 10 then ts else ts[..10] }

  function Directory(setting: string, p: Payload): string {
    PrefixOf(setting) + "tenant_id=" + p.tenant + "/" + "service_id=" + p.service + "/"
      + "metric_type=" + p.metric + "/" + "date=" + DateOf(p.ts) + "/" + "idempotency_key="
  }

  function ObjectKey(setting: string, p: Payload, key: string): string {
    Directory(setting, p) + key + SUFFIX
  }

  predicate EndsWith(s: string, suffix: string) {
    |suffix| <= |s| && s[|s| - |suffix|..] == suffix
  }

  /** Every object is found again by a scan of the prefix, the default one without a setting, for .json names. */
  lemma ObjectKeyIsScanned(setting: string, p: Payload, key: string)
    ensures var name := ObjectKey(setting, p, key);
            && (if setting == "" then "telemetry-failures/" else setting) <= name
            && |name| >= 5 && name[|name| - 5..] == ".json" && EndsWith(name, SUFFIX)
  {
  }

  /** The texts agree in character i, or both are too short for one. */
  predicate SameAt(a: string, b: string, i: nat) {
    (i < |a| <==> i < |b|) && (i < |a| && i < |b| ==> a[i] == b[i])
  }

  /** The two time stamps agree in their first ten characters, the date. */
  predicate SameDate(a: string, b: string) { forall i :: 0 <= i < 10 ==> SameAt(a, b, i) }

  lemma DateMeaning(a: string, b: string)
    ensures DateOf(a) == DateOf(b) <==> SameDate(a, b)
  {
    if SameDate(a, b) {
      assert |b| < 10 ==> SameAt(a, b, |b|);
      assert |a| < 10 ==> SameAt(a, b, |a|);
      assert |DateOf(a)| == |DateOf(b)|;
      forall i | 0 <= i < |DateOf(a)| ensures DateOf(a)[i] == DateOf(b)[i] {
        assert SameAt(a, b, i);
      }
    }
    if DateOf(a) == DateOf(b) {
      forall i | 0 <= i < 10 ensures SameAt(a, b, i) {
        assert i < |a| && i < |b| ==> DateOf(a)[i] == a[i] && DateOf(b)[i] == b[i];
      }
    }
  }

  /** For one metric of one service, failures of one date, and only those, share a directory. */
  lemma SameDirectoryExactlyWhen(setting: string, p: Payload, q: Payload)
    requires p.tenant == q.tenant && p.service == q.service && p.metric == q.metric
    ensures Directory(setting, p) == Directory(setting, q) <==> SameDate(p.ts, q.ts)
  {
    var front := PrefixOf(setting) + "tenant_id=" + p.tenant + "/" + "service_id=" + p.service + "/"
      + "metric_type=" + p.metric + "/" + "date=";
    var a, b := DateOf(p.ts), DateOf(q.ts);
    DateMeaning(p.ts, q.ts);
    hide DateOf, SameDate, PrefixOf;
    var back := "/" + "idempotency_key=";
    assert Directory(setting, p) == front + (a + back);
    assert Directory(setting, q) == front + (b + back);
    SameMiddle(front, a, b, back);
  }

  lemma SameMiddle(front: string, a: string, b: string, back: string)
    ensures front + (a + back) == front + (b + back) <==> a == b
  {
    if front + (a + back) == front + (b + back) {
      assert (front + (a + back))[|front|..] == a + back && (front + (b + back))[|front|..] == b + back;
      assert |a| == |b|;
      assert (a + back)[..|a|] == a && (b + back)[..|b|] == b;
    }
  }

  /** An object key ends in the idempotency key, so it determines it. */
  lemma ObjectKeyNamesKey(setting: string, p: Payload, key: string)
    requires |key| == 64
    ensures var o := ObjectKey(setting, p, key); |o| >= 69 && o[|o| - 69..|o| - 5] == key
  {
    var d := Directory(setting, p);
    assert d + key + SUFFIX == d + (key + SUFFIX);
  }

  /** An object key is a directory and an idempotency key, and nothing else. */
  lemma SameObjectKeyMeaning(setting: string, p: Payload, q: Payload, k: string, l: string)
    requires |k| == 64 && |l| == 64
    ensures ObjectKey(setting, p, k) == ObjectKey(setting, q, l) <==> k == l && Directory(setting, p) == Directory(setting, q)
  {
    ObjectKeyNamesKey(setting, p, k);
    ObjectKeyNamesKey(setting, q, l);
    DirectoryOfObjectKey(setting, p, k);
    DirectoryOfObjectKey(setting, q, l);
    hide Directory;
  }

  lemma DirectoryOfObjectKey(setting: string, p: Payload, key: string)
    requires |key| == 64
    ensures var o := ObjectKey(setting, p, key); |o| >= 69 && o[..|o| - 69] == Directory(setting, p)
  {
    hide Directory;
    var d := Directory(setting, p);
    assert d + key + SUFFIX == d + (key + SUFFIX);
  }

  /**
   Two payloads go to the same object exactly when their content agrees, or when the hash collides on
   them and tenant, service, metric and date read the same as well: one object for each content.
   */
  lemma SameObjectExactlyWhen(setting: string, p: Payload, q: Payload, hash: Canonical -> string)
    requires p.Valid() && q.Valid() && IsDigest(hash)
    ensures ObjectKey(setting, p, KeyOf(p, hash)) == ObjectKey(setting, q, KeyOf(q, hash))
      <==> SameContent(p, q) || (Collide(p, q, hash) && Directory(setting, p) == Directory(setting, q))
  {
    SameKeyExactlyWhen(p, q, hash);
    SameObjectKeyMeaning(setting, p, q, KeyOf(p, hash), KeyOf(q, hash));
    hide ObjectKey, LabelMap, StableSort.Sort;
  }

  /** Equal objects have equal keys, whether the hash collides or not. */
  lemma SameObjectSameKey(setting: string, p: Payload, q: Payload, hash: Canonical -> string)
    requires IsDigest(hash)
    requires ObjectKey(setting, p, KeyOf(p, hash)) == ObjectKey(setting, q, KeyOf(q, hash))
    ensures KeyOf(p, hash) == KeyOf(q, hash)
  {
    hide ObjectKey;
    SameObjectKeyMeaning(setting, p, q, KeyOf(p, hash), KeyOf(q, hash));
  }
}
