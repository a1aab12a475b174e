/**
 * The record store: the in-memory collection of coin records, the file it is
 * saved to, and the operations that add, find, search, update and delete
 * records and compute statistics over them.
 */
module CoinStore {
  import opened Wrappers
  import opened Text
  import opened Coins
  import opened Codes
  import opened Search
  import opened Stats

  /** The position of the first record carrying `id`, or `None` when none does. */
  function FirstIndex(coins: seq<Record>, id: string): (k: Option<nat>)
    ensures k.Some? ==> k.value < |coins| && HasId(coins[k.value], id)
    ensures k.Some? ==> forall j :: 0 <= j < k.value ==> !HasId(coins[j], id)
    ensures k.None? <==> forall j :: 0 <= j < |coins| ==> !HasId(coins[j], id)
  {
    if coins == [] then None
    else if HasId(coins[0], id) then Some(0)
    else match FirstIndex(coins[1..], id)
      case Some(k) => Some(k + 1)
      case None => None
  }

  /** The collection with every record carrying `id` filtered out, order preserved. */
  function WithoutId(coins: seq<Record>, id: string): (rest: seq<Record>)
    ensures |rest| <= |coins|
    ensures forall i :: 0 <= i < |rest| ==> !HasId(rest[i], id)
  {
    if coins == [] then []
    else
      var last := coins[|coins| - 1];
      WithoutId(coins[..|coins| - 1], id) + (if HasId(last, id) then [] else [last])
  }

  /** A record survives the deletion exactly when it is in the collection and does not carry `id`. */
  lemma {:induction false} WithoutIdMembership(coins: seq<Record>, id: string, r: Record)
    ensures r in WithoutId(coins, id) <==> r in coins && !HasId(r, id)
  {
    if coins != [] {
      var init := coins[..|coins| - 1];
      WithoutIdMembership(init, id, r);
      assert coins == init + [coins[|coins| - 1]];
    }
  }

  /** Deleting shortens the collection exactly when some record carries `id`. */
  lemma {:induction false} WithoutIdShrinks(coins: seq<Record>, id: string)
    ensures |WithoutId(coins, id)| < |coins| <==> exists i :: 0 <= i < |coins| && HasId(coins[i], id)
  {
    if coins != [] {
      var init := coins[..|coins| - 1];
      WithoutIdShrinks(init, id);
      if exists i :: 0 <= i < |init| && HasId(init[i], id) {
        var i :| 0 <= i < |init| && HasId(init[i], id);
        assert coins[i] == init[i];
      }
      if exists i :: 0 <= i < |coins| && HasId(coins[i], id) {
        var i :| 0 <= i < |coins| && HasId(coins[i], id);
        if i < |init| {
          assert init[i] == coins[i];
        }
      }
    }
  }

  /** When no record carries `id`, deleting leaves the collection as it was. */
  lemma {:induction false} WithoutIdUnchanged(coins: seq<Record>, id: string)
    requires forall i :: 0 <= i < |coins| ==> !HasId(coins[i], id)
    ensures WithoutId(coins, id) == coins
  {
    if coins != [] {
      var init := coins[..|coins| - 1];
      forall i | 0 <= i < |init| ensures !HasId(init[i], id) {
        assert init[i] == coins[i];
      }
      WithoutIdUnchanged(init, id);
      assert coins == init + [coins[|coins| - 1]];
    }
  }

  /** Deleting keeps the surviving records in their order. */
  lemma {:induction false} WithoutIdIsSubsequence(coins: seq<Record>, id: string)
    ensures IsSubsequence(WithoutId(coins, id), coins)
  {
    if coins != [] {
      var init := coins[..|coins| - 1];
      var last := coins[|coins| - 1];
      WithoutIdIsSubsequence(init, id);
      var rest := WithoutId(coins, id);
      if HasId(last, id) {
        assert rest == WithoutId(init, id);
        if rest != [] {
          SubsequenceExtend(rest, init, last);
        }
      } else {
        assert rest[..|rest| - 1] == WithoutId(init, id);
      }
    }
  }

  lemma {:induction false} SubsequenceMembers<T>(a: seq<T>, b: seq<T>, x: T)
    requires IsSubsequence(a, b) && x in a
    ensures x in b
    decreases |b|
  {
    var a', b' := a[..|a| - 1], b[..|b| - 1];
    assert a == a' + [a[|a| - 1]];
    assert b == b' + [b[|b| - 1]];
    if a[|a| - 1] == b[|b| - 1] && IsSubsequence(a', b') {
      if x != a[|a| - 1] {
        SubsequenceMembers(a', b', x);
      }
    } else {
      SubsequenceMembers(a, b', x);
    }
  }

  /** Taking a subsequence of a collection with distinct identifiers keeps them distinct. */
  lemma {:induction false} SubsequenceKeepsDistinctIds(a: seq<Record>, b: seq<Record>)
    requires IsSubsequence(a, b) && DistinctIds(b)
    ensures DistinctIds(a)
    decreases |b|
  {
    if a != [] {
      var a', b' := a[..|a| - 1], b[..|b| - 1];
      assert DistinctIds(b') by {
        forall i, j | 0 <= i < j < |b'| ensures IdText(b'[i]) != IdText(b'[j]) {
          assert b'[i] == b[i] && b'[j] == b[j];
        }
      }
      if a[|a| - 1] == b[|b| - 1] && IsSubsequence(a', b') {
        SubsequenceKeepsDistinctIds(a', b');
        forall i, j | 0 <= i < j < |a| ensures IdText(a[i]) != IdText(a[j]) {
          if j < |a| - 1 {
            assert a[i] == a'[i] && a[j] == a'[j];
          } else {
            assert a[i] == a'[i];
            SubsequenceMembers(a', b', a'[i]);
            var k :| 0 <= k < |b'| && b'[k] == a'[i];
            assert b[k] == b'[k];
          }
        }
      } else {
        SubsequenceKeepsDistinctIds(a, b');
      }
    }
  }

  /** Appending a record whose identifier no earlier record has keeps identifiers distinct. */
  lemma AppendKeepsDistinctIds(coins: seq<Record>, r: Record)
    requires DistinctIds(coins)
    requires forall i :: 0 <= i < |coins| ==> IdText(coins[i]) != IdText(r)
    ensures DistinctIds(coins + [r])
  {
    var c := coins + [r];
    forall i, j | 0 <= i < j < |c| ensures IdText(c[i]) != IdText(c[j]) {
      assert c[i] == coins[i];
      if j < |coins| {
        assert c[j] == coins[j];
      }
    }
  }

  /**
   * The store. `coins` is the in-memory collection; `disk` is the content of
   * the collection file, `None` while no file exists.
   */
  class Store {
    var coins: seq<Record>
    var disk: Option<seq<Record>>

    /** At start-up the collection is empty and the file holds whatever it holds. */
    constructor (file: Option<seq<Record>>)
      ensures coins == [] && disk == file
    {
      coins := [];
      disk := file;
    }

    /** Replace the collection by the file's content, or by the empty list when there is no file. */
    method Load()
      modifies this
      ensures disk == old(disk)
      ensures coins == (if disk.Some? then disk.value else [])
    {
      if disk.Some? {
        coins := disk.value;
      } else {
        coins := [];
      }
    }

    /** Overwrite the file with the whole collection. */
    method Save()
      modifies this
      ensures coins == old(coins)
      ensures disk == Some(coins)
    {
      disk := Some(coins);
    }

    /**
     * The identifier for a new coin of `country` minted in `year`, scanning the
     * collection for the largest sequence already used with the same prefix
     * and year token. For a year that is not negative it differs from every
     * identifier in the collection.
     */
    method GenerateCode(country: Value, year: Option<int>) returns (code: string)
      ensures code == NewCode(coins, country, year)
      ensures (year.None? || year.value >= 0) ==>
                forall i :: 0 <= i < |coins| ==> IdText(coins[i]) != code
    {
      var prefix := Prefix(country);
      var token := YearToken(year);
      var maxSeq := 0;
      var i := 0;
      while i < |coins|
        invariant 0 <= i <= |coins|
        invariant maxSeq == MaxSequence(coins[..i], prefix, token)
      {
        var parts := Split(IdText(coins[i]), '-');
        if |parts| == 3 {
          if parts[0] == prefix && parts[1] == token {
            match ParseInt(parts[2]) {
              case Some(k) =>
                if k > maxSeq {
                  maxSeq := k;
                }
              case None =>
            }
          }
        }
        MaxSequenceStep(coins, i, prefix, token);
        i := i + 1;
      }
      assert coins[..i] == coins;
      code := prefix + "-" + token + "-" + SequenceText(maxSeq + 1);
      if year.None? || year.value >= 0 {
        NewCodeIsFresh(coins, country, year);
      }
    }

    /**
     * Add a coin: assign it a generated identifier, append a record holding every
     * defined field (missing ones `None`) and save. The identifier returned is
     * the one written into the caller's record.
     */
    method Add(coin: Record) returns (id: string)
      modifies this
      ensures id == NewCode(old(coins), GetOr(coin, Country, Str("")), YearArg(GetOr(coin, MintYear, Str(""))))
      ensures coins == old(coins) + [Complete(coin, id)]
      ensures disk == Some(coins)
      ensures var year := YearArg(GetOr(coin, MintYear, Str("")));
              (year.None? || year.value >= 0) ==>
                (forall i :: 0 <= i < |old(coins)| ==> IdText(old(coins)[i]) != id)
                && (DistinctIds(old(coins)) ==> DistinctIds(coins))
    {
      var country := GetOr(coin, Country, Str(""));
      var year := YearArg(GetOr(coin, MintYear, Str("")));
      id := GenerateCode(country, year);
      var record := Complete(coin, id);
      if (year.None? || year.value >= 0) && DistinctIds(coins) {
        AppendKeepsDistinctIds(coins, record);
      }
      coins := coins + [record];
      Save();
    }

    /** The first record carrying `id`, or `None` exactly when no record carries it. */
    method FindById(id: string) returns (found: Option<Record>)
      ensures found.None? <==> forall i :: 0 <= i < |coins| ==> !HasId(coins[i], id)
      ensures found.Some? ==>
                exists i :: 0 <= i < |coins| && coins[i] == found.value && HasId(coins[i], id) &&
                            forall j :: 0 <= j < i ==> !HasId(coins[j], id)
    {
      var i := 0;
      while i < |coins|
        invariant 0 <= i <= |coins|
        invariant forall j :: 0 <= j < i ==> !HasId(coins[j], id)
      {
        if Get(coins[i], Id) == Str(id) {
          return Some(coins[i]);
        }
        i := i + 1;
      }
      return None;
    }

    /**
     * The records that pass every non-blank criterion, in collection order: a
     * record passes a criterion when the lower-cased criterion text occurs in
     * the lower-cased text of the record's field.
     */
    method Search(criteria: seq<Criterion>) returns (results: seq<Record>)
      ensures results == Select(coins, criteria)
      ensures forall r :: r in results <==> r in coins && Matches(r, criteria)
      ensures IsSubsequence(results, coins)
    {
      results := [];
      var i := 0;
      while i < |coins|
        invariant 0 <= i <= |coins|
        invariant results == Select(coins[..i], criteria)
      {
        var coin := coins[i];
        var matches := true;
        var j := 0;
        while j < |criteria| && matches
          invariant 0 <= j <= |criteria|
          invariant matches <==> forall k :: 0 <= k < j ==> Satisfies(coin, criteria[k])
        {
          var (key, value) := criteria[j];
          if !Blank(value) {
            var fieldText := Lower(FieldText(Get(coin, key)));
            var valueText := Lower(Show(value));
            if !Contains(fieldText, valueText) {
              matches := false;
            }
          }
          j := j + 1;
        }
        assert matches <==> Matches(coin, criteria);
        if matches {
          results := results + [coin];
        }
        SelectStep(coins, i, criteria);
        i := i + 1;
      }
      assert coins[..i] == coins;
      SelectSpec(coins, criteria);
    }

    /**
     * Overwrite the supplied fields of the first record carrying `id` and save.
     * Returns whether such a record exists; when none does, nothing changes and
     * nothing is saved.
     */
    method Update(id: string, changes: map<Field, Value>) returns (found: bool)
      modifies this
      ensures found <==> exists i :: 0 <= i < |old(coins)| && HasId(old(coins)[i], id)
      ensures found ==>
                var k := FirstIndex(old(coins), id).value;
                && coins == old(coins)[k := old(coins)[k] + changes]
                && disk == Some(coins)
      ensures !found ==> coins == old(coins) && disk == old(disk)
      ensures |coins| == |old(coins)|
      ensures Id !in changes ==> forall i :: 0 <= i < |coins| ==> IdText(coins[i]) == IdText(old(coins)[i])
    {
      var i := 0;
      while i < |coins|
        invariant 0 <= i <= |coins|
        invariant coins == old(coins) && disk == old(disk)
        invariant forall j :: 0 <= j < i ==> !HasId(coins[j], id)
      {
        if Get(coins[i], Id) == Str(id) {
          var record := coins[i];
          var todo := changes.Keys;
          while todo != {}
            invariant todo <= changes.Keys
            invariant record == coins[i] + map k | k in changes.Keys - todo :: changes[k]
            decreases todo
          {
            var key :| key in todo;
            record := record[key := changes[key]];
            todo := todo - {key};
          }
          assert record == coins[i] + changes;
          coins := coins[i := record];
          Save();
          return true;
        }
        i := i + 1;
      }
      return false;
    }

    /**
     * Remove every record carrying `id`, keeping the others in order, and save
     * when the collection became shorter. Returns whether anything was removed.
     */
    method Delete(id: string) returns (removed: bool)
      modifies this
      ensures coins == WithoutId(old(coins), id)
      ensures removed <==> exists i :: 0 <= i < |old(coins)| && HasId(old(coins)[i], id)
      ensures removed ==> disk == Some(coins)
      ensures !removed ==> coins == old(coins) && disk == old(disk)
      ensures DistinctIds(old(coins)) ==> DistinctIds(coins)
    {
      var initialLen := |coins|;
      WithoutIdShrinks(coins, id);
      if forall i :: 0 <= i < |coins| ==> !HasId(coins[i], id) {
        WithoutIdUnchanged(coins, id);
      }
      WithoutIdIsSubsequence(coins, id);
      if DistinctIds(coins) {
        SubsequenceKeepsDistinctIds(WithoutId(coins, id), coins);
      }
      coins := WithoutId(coins, id);
      if |coins| < initialLen {
        Save();
        removed := true;
      } else {
        removed := false;
      }
    }

    /** The number of records in the collection. */
    method CountUnique() returns (n: nat)
      ensures n == |coins|
    {
      n := |coins|;
    }

    /**
     * The number of coins: the sum of the records' quantities, a missing or
     * unparsable quantity counting as one.
     */
    method CountTotal() returns (total: int)
      ensures total == TotalQuantity(coins)
      ensures (forall i :: 0 <= i < |coins| ==> QuantityOf(coins[i]) >= 1) ==> total >= |coins|
    {
      total := 0;
      var i := 0;
      while i < |coins|
        invariant 0 <= i <= |coins|
        invariant total == TotalQuantity(coins[..i])
      {
        var quantity := GetOr(coins[i], Quantity, Int(1));
        match quantity {
          case Int(q) => total := total + q;
          case Bool(b) => total := total + if b then 1 else 0;
          case Str(s) =>
            match ParseInt(s) {
              case Some(q) => total := total + q;
              case None => total := total + 1;
            }
          case Null => total := total + 1;
        }
        assert coins[..i + 1][..i] == coins[..i];
        i := i + 1;
      }
      assert coins[..i] == coins;
      TotalQuantityBounds(coins);
    }

    /**
     * The number of distinct countries, compared after lower-casing, among the
     * records whose country is set; `None` stands for the error raised when a
     * set country is not a string.
     */
    method CountDistinctCountries() returns (n: Option<nat>)
      ensures n.None? <==> exists i :: 0 <= i < |coins| && BadCountry(coins[i])
      ensures n.Some? ==> n.value == |CountrySet(coins)| && n.value <= |coins|
    {
      var countries: set<string> := {};
      var i := 0;
      while i < |coins|
        invariant 0 <= i <= |coins|
        invariant forall j :: 0 <= j < i ==> !BadCountry(coins[j])
        invariant countries == CountrySet(coins[..i])
      {
        var country := Get(coins[i], Country);
        if Truthy(country) {
          if !country.Str? {
            return None;
          }
          countries := countries + {Lower(country.s)};
        }
        assert coins[..i + 1][..i] == coins[..i];
        i := i + 1;
      }
      assert coins[..i] == coins;
      CountrySetBound(coins);
      return Some(|countries|);
    }

    /**
     * The distribution of a field: each truthy value held by some record maps
     * to the number of records holding it, and the counts add up to the number
     * of records whose field is truthy.
     */
    method Distribution(f: Field) returns (d: map<Value, nat>)
      ensures d == Tally(coins, f)
      ensures forall v :: v in d <==> Truthy(v) && SomeRecordHolds(coins, f, v)
      ensures forall v :: v in d ==> d[v] == CountOf(coins, f, v)
      ensures MapSum(d) == CountTruthy(coins, f)
    {
      d := map[];
      var i := 0;
      while i < |coins|
        invariant 0 <= i <= |coins|
        invariant d == Tally(coins[..i], f)
      {
        var v := Get(coins[i], f);
        if Truthy(v) {
          d := d[v := (if v in d then d[v] else 0) + 1];
        }
        TallyStep(coins, i, f);
        i := i + 1;
      }
      assert coins[..i] == coins;
      TallySpec(coins, f);
    }

    method DistributionByCountry() returns (d: map<Value, nat>)
      ensures d == Tally(coins, Country)
      ensures MapSum(d) == CountTruthy(coins, Country)
    {
      d := Distribution(Country);
    }

    method DistributionByMintMark() returns (d: map<Value, nat>)
      ensures d == Tally(coins, MintMark)
      ensures MapSum(d) == CountTruthy(coins, MintMark)
    {
      d := Distribution(MintMark);
    }

    method DistributionByCondition() returns (d: map<Value, nat>)
      ensures d == Tally(coins, Condition)
      ensures MapSum(d) == CountTruthy(coins, Condition)
    {
      d := Distribution(Condition);
    }

    method DistributionByKind() returns (d: map<Value, nat>)
      ensures d == Tally(coins, Kind)
      ensures MapSum(d) == CountTruthy(coins, Kind)
    {
      d := Distribution(Kind);
    }

    method DistributionByOrientation() returns (d: map<Value, nat>)
      ensures d == Tally(coins, Orientation)
      ensures MapSum(d) == CountTruthy(coins, Orientation)
    {
      d := Distribution(Orientation);
    }

    /**
     * The demonetised split: `"Sí"` counts the records whose flag is truthy,
     * `"No"` the others, so the two add up to the number of records.
     */
    method DemonetizedSplit() returns (d: map<string, nat>)
      ensures d.Keys == {"Sí", "No"}
      ensures d["Sí"] == CountTruthy(coins, Demonetized)
      ensures d["Sí"] + d["No"] == |coins|
    {
      d := map["Sí" := 0, "No" := 0];
      var i := 0;
      while i < |coins|
        invariant 0 <= i <= |coins|
        invariant d.Keys == {"Sí", "No"}
        invariant d["Sí"] == CountTruthy(coins[..i], Demonetized)
        invariant d["Sí"] + d["No"] == i
      {
        if Truthy(GetOr(coins[i], Demonetized, Bool(false))) {
          d := d["Sí" := d["Sí"] + 1];
        } else {
          d := d["No" := d["No"] + 1];
        }
        assert coins[..i + 1][..i] == coins[..i];
        i := i + 1;
      }
      assert coins[..i] == coins;
    }
  }

  /** Saving and then loading gives back the same collection. */
  method SaveThenLoad(s: Store)
    modifies s
    ensures s.coins == old(s.coins) && s.disk == Some(s.coins)
  {
    s.Save();
    s.Load();
  }
}
