/**
 Which audit items save_audit_log of src/prediction_worker/app.py can hand to DynamoDB.  Its numbers go
 through Decimal(str(value)); a DynamoDB number has at most 38 digits and a magnitude from 1E-130 to
 below 1E+126, and the client refuses floats inside other attributes.
 */
module AuditItem {
  import opened Json
  import opened Powers
  import opened RealArith
  import PythonText

  /** All digits of an integer are written out. */
  predicate IsStorableInteger(n: int) { -(Power(10, 38) as int) < n < Power(10, 38) }

  /** A float prints at most 17 digits, so only its magnitude counts. */
  predicate IsStorableFloat(x: real) {
    x == 0.0 || (Abs(x) * Power(10, 130) as real >= 1.0 && Abs(x) < Power(10, 126) as real)
  }

  /** A number that as_dynamodb_number takes over from a reply: Decimal("True") is an error. */
  predicate IsStorableNumber(j: Json) {
    match j
    case Int(n) => IsStorableInteger(n)
    case Float(x) => IsStorableFloat(x)
    case _ => false
  }

  /** An attribute that is handed over as it came. */
  predicate IsStorable(j: Json) {
    match j
    case Float(_) => false
    case Int(n) => IsStorableInteger(n)
    case List(items) => forall i :: 0 <= i < |items| ==> IsStorable(items[i])
    case Object(fields) => forall k :: k in fields ==> IsStorable(fields[k])
    case _ => true
  }

  function Field(fields: map<string, Json>, key: string, default: Json): Json {
    if key in fields then fields[key] else default
  }

  predicate IsStorableRecommendation(rec: Json) {
    && rec.Object?
    && IsStorable(Field(rec.fields, "action_verb", Str("INVESTIGATE")))
    && IsStorable(Field(rec.fields, "target", Str("")))
    && IsStorable(Field(rec.fields, "from_to", Str("")))
    && IsStorableNumber(Field(rec.fields, "confidence", Float(0.0)))
    && IsStorable(Field(rec.fields, "evidence_link", Str("")))
  }

  /** Whether the put is reached at all; the other attributes are texts, flags and small integers. */
  predicate IsStorableItem(score: real, severity: real, recommendation: Json) {
    && IsStorableFloat(score) && IsStorableFloat(severity)
    && (Truthy(recommendation) ==> IsStorableRecommendation(recommendation))
  }

  /** An integer fits exactly when it is written with at most 38 digits. */
  lemma IntegerIsStorableExactlyWhen(n: int)
    ensures IsStorableInteger(n) <==> |PythonText.Decimal(if n < 0 then -n else n)| <= 38
  {
    PythonText.DecimalLength(if n < 0 then -n else n, 38);
    hide Power, PythonText.Decimal;
  }

  /** A float fits exactly when it is 0, or its size is from 1E-130 to below 1E+126. */
  lemma FloatIsStorableExactlyWhen(x: real)
    ensures var size := if x < 0.0 then -x else x;
            IsStorableFloat(x) <==>
              x == 0.0 || (TenTo(-130) <= size && size < TenTo(126))
  {
    PowerIsPositive(10, 130);
    hide Power;
    var p, size := Power(10, 130) as real, Abs(x);
    assert TenTo(-130) == Ratio(1.0, p);
    TimesAgainstRatio(size, p);
  }

  function TenTo(e: int): real {
    if e >= 0 then Power(10, e) as real
    else
      PowerIsPositive(10, -e);
      Ratio(1.0, Power(10, -e) as real)
  }

  lemma TimesAgainstRatio(size: real, p: real)
    requires p > 0.0
    ensures size * p >= 1.0 <==> size >= Ratio(1.0, p)
  {
    var q := Ratio(1.0, p);
    ProductOrder(p, size, q);
    assert p * size == size * p && p * q == q * p == 1.0;
  }

  /** The value is x or holds it at some depth. */
  ghost predicate Holds(j: Json, x: Json) {
    || j == x
    || (j.List? && exists i :: 0 <= i < |j.items| && Holds(j.items[i], x))
    || (j.Object? && exists k :: k in j.fields && Holds(j.fields[k], x))
  }

  ghost predicate IsRefused(x: Json) { x.Float? || (x.Int? && !IsStorableInteger(x.n)) }

  /** An attribute is refused exactly when a float or a too long integer stands in it, at whatever depth. */
  lemma {:induction false} IsStorableExactlyWhen(j: Json)
    ensures IsStorable(j) <==> !exists x :: Holds(j, x) && IsRefused(x)
  {
    hide IsStorableInteger;
    match j
    case List(items) =>
      forall i | 0 <= i < |items|
        ensures IsStorable(items[i]) <==> !exists x :: Holds(items[i], x) && IsRefused(x)
      {
        IsStorableExactlyWhen(items[i]);
      }
      ListHolds(items);
    case Object(fields) =>
      forall k | k in fields
        ensures IsStorable(fields[k]) <==> !exists x :: Holds(fields[k], x) && IsRefused(x)
      {
        IsStorableExactlyWhen(fields[k]);
      }
      ObjectHolds(fields);
    case _ =>
      assert Holds(j, j);
      assert forall x :: Holds(j, x) ==> x == j;
  }

  lemma ListHolds(items: seq<Json>)
    ensures (exists x :: Holds(List(items), x) && IsRefused(x))
       <==> exists i, x :: 0 <= i < |items| && Holds(items[i], x) && IsRefused(x)
  {
    if exists i, x :: 0 <= i < |items| && Holds(items[i], x) && IsRefused(x) {
      var i, x :| 0 <= i < |items| && Holds(items[i], x) && IsRefused(x);
      assert Holds(List(items), x);
    }
    if exists x :: Holds(List(items), x) && IsRefused(x) {
      var x :| Holds(List(items), x) && IsRefused(x);
      assert x != List(items);
      var i :| 0 <= i < |items| && Holds(items[i], x);
    }
  }

  lemma ObjectHolds(fields: map<string, Json>)
    ensures (exists x :: Holds(Object(fields), x) && IsRefused(x))
       <==> exists k, x :: k in fields && Holds(fields[k], x) && IsRefused(x)
  {
    if exists k, x :: k in fields && Holds(fields[k], x) && IsRefused(x) {
      var k, x :| k in fields && Holds(fields[k], x) && IsRefused(x);
      assert Holds(Object(fields), x);
    }
    if exists x :: Holds(Object(fields), x) && IsRefused(x) {
      var x :| Holds(Object(fields), x) && IsRefused(x);
      assert x != Object(fields);
      var k :| k in fields && Holds(fields[k], x);
    }
  }

  /** Scores, severities and confidences of ordinary size. */
  lemma OrdinaryFloatIsStorable(x: real)
    requires x == 0.0 || 0.01 <= x <= 100.0
    ensures IsStorableFloat(x)
  {
    assert Power(10, 2) == 100 by { assert Power(10, 1) == 10; }
    PowerGrows(10, 2, 130);
    PowerGrows(10, 2, 126);
    hide Power;
    if x != 0.0 {
      ProductAtLeastOne(x, Power(10, 130) as real);
    }
  }

  lemma ProductAtLeastOne(x: real, p: real)
    requires x >= 0.01 && p >= 100.0
    ensures x * p >= 1.0
  {
    var d, e := x - 0.01, p - 100.0;
    assert x * p == 1.0 + 0.01 * e + d * p;
    assert d * p >= 0.0;
  }

  /** An integer that no float can hold has too many digits for the table. */
  lemma OverflowIsNotStorable(n: int)
    requires n >= FLOAT_OVERFLOW || n <= -FLOAT_OVERFLOW
    ensures !IsStorableInteger(n)
  {
    PowerGrows(2, 970, 1024);
    TenAgainstTwo(38);
    PowerGrows(2, 152, 970);
    hide Power;
  }
}
