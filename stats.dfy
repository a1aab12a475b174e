/**
 * The statistics over the collection, as functions of the list of records:
 * the quantity total, the distinct countries, per-field tallies and the
 * demonetised split, with the counting identities they satisfy.
 */
module Stats {
  import opened Wrappers
  import opened Text
  import opened Coins

  /**
   * What `int(record.get("cantidad", 1))` contributes to the total: the
   * integer (a boolean is one), a parsable string's number, and 1 for a
   * missing key, `None` or an unparsable string.
   */
  function QuantityOf(r: Record): int
  {
    match GetOr(r, Quantity, Int(1))
    case Int(i) => i
    case Bool(b) => if b then 1 else 0
    case Str(s) => (match ParseInt(s) case Some(k) => k case None => 1)
    case Null => 1
  }

  /** The total number of coins: the sum of the quantities of all records. */
  function TotalQuantity(coins: seq<Record>): int
  {
    if coins == [] then 0 else TotalQuantity(coins[..|coins| - 1]) + QuantityOf(coins[|coins| - 1])
  }

  /** The total of two collections placed one after the other is the sum of their totals. */
  lemma {:induction false} TotalQuantityConcat(a: seq<Record>, b: seq<Record>)
    ensures TotalQuantity(a + b) == TotalQuantity(a) + TotalQuantity(b)
  {
    if b == [] {
      assert a + b == a;
    } else {
      var b' := b[..|b| - 1];
      assert (a + b)[..|a + b| - 1] == a + b';
      assert (a + b)[|a + b| - 1] == b[|b| - 1];
      TotalQuantityConcat(a, b');
    }
  }

  /**
   * When every record's quantity is at least one, the total is at least the
   * number of records; when no record carries a quantity, it is exactly that.
   */
  lemma {:induction false} TotalQuantityBounds(coins: seq<Record>)
    ensures (forall i :: 0 <= i < |coins| ==> QuantityOf(coins[i]) >= 1) ==> TotalQuantity(coins) >= |coins|
    ensures (forall i :: 0 <= i < |coins| ==> Quantity !in coins[i]) ==> TotalQuantity(coins) == |coins|
  {
    if coins != [] {
      TotalQuantityBounds(coins[..|coins| - 1]);
    }
  }

  /** Number of records whose `field` is truthy. */
  function CountTruthy(coins: seq<Record>, f: Field): (n: nat)
    ensures n <= |coins|
  {
    if coins == [] then 0
    else CountTruthy(coins[..|coins| - 1], f) + (if Truthy(Get(coins[|coins| - 1], f)) then 1 else 0)
  }

  /** Number of records whose `field` holds exactly `v`. */
  function CountOf(coins: seq<Record>, f: Field, v: Value): nat
  {
    if coins == [] then 0
    else CountOf(coins[..|coins| - 1], f, v) + (if Get(coins[|coins| - 1], f) == v then 1 else 0)
  }

  /** `CountOf` is positive exactly when some record holds the value. */
  lemma {:induction false} CountOfPositive(coins: seq<Record>, f: Field, v: Value)
    ensures CountOf(coins, f, v) > 0 <==> exists i :: 0 <= i < |coins| && Get(coins[i], f) == v
  {
    if coins != [] {
      var init := coins[..|coins| - 1];
      CountOfPositive(init, f, v);
      if exists i :: 0 <= i < |init| && Get(init[i], f) == v {
        var i :| 0 <= i < |init| && Get(init[i], f) == v;
        assert coins[i] == init[i];
      }
      if exists i :: 0 <= i < |coins| && Get(coins[i], f) == v {
        var i :| 0 <= i < |coins| && Get(coins[i], f) == v;
        if i < |init| {
          assert init[i] == coins[i];
        }
      }
    }
  }

  /**
   * The per-value tally of a field: every truthy value maps to the number of
   * records holding it, as the distribution loops build it.
   */
  function Tally(coins: seq<Record>, f: Field): map<Value, nat>
  {
    if coins == [] then map[]
    else
      var d := Tally(coins[..|coins| - 1], f);
      var v := Get(coins[|coins| - 1], f);
      if Truthy(v) then d[v := (if v in d then d[v] else 0) + 1] else d
  }

  /** Every key of the tally is truthy and maps to its positive count, and no such value is missing. */
  lemma {:induction false} TallyCounts(coins: seq<Record>, f: Field)
    ensures forall v :: v in Tally(coins, f) ==>
              Truthy(v) && Tally(coins, f)[v] == CountOf(coins, f, v) && Tally(coins, f)[v] > 0
    ensures forall v :: Truthy(v) && CountOf(coins, f, v) > 0 ==> v in Tally(coins, f)
  {
    if coins != [] {
      var init := coins[..|coins| - 1];
      TallyCounts(init, f);
      var d, v := Tally(init, f), Get(coins[|coins| - 1], f);
      var t := Tally(coins, f);
      assert t == if Truthy(v) then d[v := (if v in d then d[v] else 0) + 1] else d;
      forall w ensures CountOf(coins, f, w) == CountOf(init, f, w) + (if v == w then 1 else 0) {
      }
    }
  }

  lemma TallyStep(coins: seq<Record>, i: nat, f: Field)
    requires i < |coins|
    ensures var d, v := Tally(coins[..i], f), Get(coins[i], f);
            Tally(coins[..i + 1], f) == if Truthy(v) then d[v := (if v in d then d[v] else 0) + 1] else d
  {
    assert coins[..i + 1][..i] == coins[..i];
  }

  /** Some record of `coins` holds `v` in field `f`. */
  predicate SomeRecordHolds(coins: seq<Record>, f: Field, v: Value)
  {
    exists i :: 0 <= i < |coins| && Get(coins[i], f) == v
  }

  /** The tally's keys are exactly the truthy values some record holds. */
  lemma TallyDomain(coins: seq<Record>, f: Field)
    ensures forall v :: v in Tally(coins, f) <==> Truthy(v) && SomeRecordHolds(coins, f, v)
  {
    TallyCounts(coins, f);
    forall v ensures v in Tally(coins, f) <==> Truthy(v) && SomeRecordHolds(coins, f, v) {
      CountOfPositive(coins, f, v);
    }
  }

  /** The sum of the counts of a tally. */
  ghost function MapSum(m: map<Value, nat>): nat
    decreases |m|
  {
    if m == map[] then 0
    else
      var k :| k in m;
      m[k] + MapSum(m - {k})
  }

  /** The sum does not depend on which key is taken out first. */
  lemma {:induction false} MapSumRemove(m: map<Value, nat>, k: Value)
    requires k in m
    ensures MapSum(m) == m[k] + MapSum(m - {k})
    decreases |m|
  {
    var j :| j in m && MapSum(m) == m[j] + MapSum(m - {j});
    if j != k {
      var mj, mk := m - {j}, m - {k};
      assert |mj| < |m| && |mk| < |m| by {
        assert mj.Keys == m.Keys - {j} && mk.Keys == m.Keys - {k};
      }
      MapSumRemove(mj, k);
      MapSumRemove(mk, j);
      assert mj - {k} == mk - {j};
    }
  }

  lemma MapSumBump(m: map<Value, nat>, v: Value)
    ensures MapSum(m[v := (if v in m then m[v] else 0) + 1]) == MapSum(m) + 1
  {
    var m' := m[v := (if v in m then m[v] else 0) + 1];
    MapSumRemove(m', v);
    assert m' - {v} == m - {v};
    if v in m {
      MapSumRemove(m, v);
    } else {
      assert m - {v} == m;
    }
  }

  /** A tally's counts add up to the number of records whose field is truthy. */
  lemma {:induction false} TallySum(coins: seq<Record>, f: Field)
    ensures MapSum(Tally(coins, f)) == CountTruthy(coins, f)
  {
    if coins != [] {
      var init := coins[..|coins| - 1];
      var d, v := Tally(init, f), Get(coins[|coins| - 1], f);
      TallySum(init, f);
      assert CountTruthy(coins, f) == CountTruthy(init, f) + (if Truthy(v) then 1 else 0);
      if Truthy(v) {
        assert Tally(coins, f) == d[v := (if v in d then d[v] else 0) + 1];
        MapSumBump(d, v);
      } else {
        assert Tally(coins, f) == d;
      }
    }
  }

  /** What the distribution promises of its tally. */
  lemma TallySpec(coins: seq<Record>, f: Field)
    ensures forall v :: v in Tally(coins, f) <==> Truthy(v) && SomeRecordHolds(coins, f, v)
    ensures forall v :: v in Tally(coins, f) ==> Tally(coins, f)[v] == CountOf(coins, f, v)
    ensures MapSum(Tally(coins, f)) == CountTruthy(coins, f)
  {
    TallyCounts(coins, f);
    TallyDomain(coins, f);
    TallySum(coins, f);
  }

  /** The record's country is truthy but not a string, so `.lower()` raises. */
  predicate BadCountry(r: Record)
  {
    Truthy(Get(r, Country)) && !Get(r, Country).Str?
  }

  /** The lower-cased non-empty string countries of the collection. */
  function CountrySet(coins: seq<Record>): set<string>
  {
    if coins == [] then {}
    else
      var rest := CountrySet(coins[..|coins| - 1]);
      match Get(coins[|coins| - 1], Country)
      case Str(s) => if s != "" then rest + {Lower(s)} else rest
      case _ => rest
  }

  /** The record names the country `name` once lower-cased. */
  predicate NamesCountry(r: Record, name: string)
  {
    Get(r, Country).Str? && Get(r, Country).s != "" && Lower(Get(r, Country).s) == name
  }

  /** A country name is counted exactly when some record has it, compared case-insensitively. */
  lemma {:induction false} CountrySetMembership(coins: seq<Record>, name: string)
    ensures name in CountrySet(coins) <==> exists i :: 0 <= i < |coins| && NamesCountry(coins[i], name)
  {
    if coins != [] {
      var init := coins[..|coins| - 1];
      CountrySetMembership(init, name);
      if exists i :: 0 <= i < |init| && NamesCountry(init[i], name) {
        var i :| 0 <= i < |init| && NamesCountry(init[i], name);
        assert coins[i] == init[i];
      }
      if exists i :: 0 <= i < |coins| && NamesCountry(coins[i], name) {
        var i :| 0 <= i < |coins| && NamesCountry(coins[i], name);
        if i < |init| {
          assert init[i] == coins[i];
        }
      }
    }
  }

  /** There are never more distinct countries than records that name a country. */
  lemma {:induction false} CountrySetBound(coins: seq<Record>)
    ensures |CountrySet(coins)| <= CountTruthy(coins, Country) <= |coins|
  {
    if coins != [] {
      var init := coins[..|coins| - 1];
      CountrySetBound(init);
      var rest := CountrySet(init);
      match Get(coins[|coins| - 1], Country)
      case Str(s) =>
        if s != "" {
          assert |rest + {Lower(s)}| <= |rest| + 1;
        }
      case _ =>
    }
  }
}
