/**
 * The search semantics: a record is selected when, for every criterion whose
 * value is not blank, the lower-cased text of the criterion occurs in the
 * lower-cased text of the record's field. Criteria are combined with AND.
 */
module Search {
  import opened Text
  import opened Coins

  /** One `key: value` entry of the criteria dictionary, in insertion order. */
  type Criterion = (Field, Value)

  /** `value is None or value == ""`: a criterion that is skipped. */
  predicate Blank(v: Value)
  {
    v == Null || v == Str("")
  }

  /** The text a field contributes to the search: `str(v)`, with `None` read as `""`. */
  function FieldText(v: Value): string
  {
    if v == Null then "" else Show(v)
  }

  /** The record passes one criterion. */
  predicate Satisfies(r: Record, c: Criterion)
  {
    Blank(c.1) || Contains(Lower(FieldText(Get(r, c.0))), Lower(Show(c.1)))
  }

  /** The record passes every criterion. */
  predicate Matches(r: Record, criteria: seq<Criterion>)
  {
    forall i :: 0 <= i < |criteria| ==> Satisfies(r, criteria[i])
  }

  /** `a` is `b` with some elements left out, the rest in their original order. */
  predicate IsSubsequence<T(==)>(a: seq<T>, b: seq<T>)
    decreases |b|
  {
    if a == [] then true
    else if b == [] then false
    else (a[|a| - 1] == b[|b| - 1] && IsSubsequence(a[..|a| - 1], b[..|b| - 1]))
         || IsSubsequence(a, b[..|b| - 1])
  }

  /** The records of `coins` that match `criteria`, in collection order. */
  function Select(coins: seq<Record>, criteria: seq<Criterion>): (rs: seq<Record>)
    ensures |rs| <= |coins|
  {
    if coins == [] then []
    else
      var last := coins[|coins| - 1];
      Select(coins[..|coins| - 1], criteria) + (if Matches(last, criteria) then [last] else [])
  }

  /** A record is selected exactly when it is in the collection and matches. */
  lemma {:induction false} SelectMembership(coins: seq<Record>, criteria: seq<Criterion>, r: Record)
    ensures r in Select(coins, criteria) <==> r in coins && Matches(r, criteria)
  {
    if coins != [] {
      var init := coins[..|coins| - 1];
      SelectMembership(init, criteria, r);
      assert coins == init + [coins[|coins| - 1]];
    }
  }

  /** The selection keeps the collection's order. */
  lemma {:induction false} SelectIsSubsequence(coins: seq<Record>, criteria: seq<Criterion>)
    ensures IsSubsequence(Select(coins, criteria), coins)
  {
    if coins != [] {
      var init := coins[..|coins| - 1];
      var last := coins[|coins| - 1];
      SelectIsSubsequence(init, criteria);
      var rs := Select(coins, criteria);
      if Matches(last, criteria) {
        assert rs[..|rs| - 1] == Select(init, criteria);
      } else {
        assert rs == Select(init, criteria);
        if rs != [] {
          SubsequenceExtend(rs, init, last);
        }
      }
    }
  }

  lemma {:induction false} SubsequenceExtend<T>(a: seq<T>, b: seq<T>, x: T)
    requires IsSubsequence(a, b)
    ensures IsSubsequence(a, b + [x])
  {
    if a != [] {
      assert (b + [x])[..|b|] == b;
    }
  }

  /** When every criterion is blank, every record is returned. */
  lemma {:induction false} SelectAllBlank(coins: seq<Record>, criteria: seq<Criterion>)
    requires forall i :: 0 <= i < |criteria| ==> Blank(criteria[i].1)
    ensures Select(coins, criteria) == coins
  {
    if coins != [] {
      SelectAllBlank(coins[..|coins| - 1], criteria);
      assert coins == coins[..|coins| - 1] + [coins[|coins| - 1]];
    }
  }

  /** Criteria combine by AND: matching two lists of criteria is matching both. */
  lemma MatchesConcat(r: Record, c1: seq<Criterion>, c2: seq<Criterion>)
    ensures Matches(r, c1 + c2) <==> Matches(r, c1) && Matches(r, c2)
  {
    if Matches(r, c1) && Matches(r, c2) {
      forall i | 0 <= i < |c1 + c2| ensures Satisfies(r, (c1 + c2)[i]) {
        if i >= |c1| {
          assert (c1 + c2)[i] == c2[i - |c1|];
        }
      }
    }
    if Matches(r, c1 + c2) {
      forall i | 0 <= i < |c1| ensures Satisfies(r, c1[i]) {
        assert (c1 + c2)[i] == c1[i];
      }
      forall i | 0 <= i < |c2| ensures Satisfies(r, c2[i]) {
        assert (c1 + c2)[|c1| + i] == c2[i];
      }
    }
  }

  /** Appending a record to the collection appends it to the selection exactly when it matches. */
  lemma SelectSnoc(coins: seq<Record>, x: Record, criteria: seq<Criterion>)
    ensures Select(coins + [x], criteria) ==
            Select(coins, criteria) + (if Matches(x, criteria) then [x] else [])
  {
    assert (coins + [x])[..|coins|] == coins;
  }

  /** One more record scanned: it is appended when it matches. */
  lemma SelectStep(coins: seq<Record>, i: nat, criteria: seq<Criterion>)
    requires i < |coins|
    ensures Select(coins[..i + 1], criteria) ==
            Select(coins[..i], criteria) + (if Matches(coins[i], criteria) then [coins[i]] else [])
  {
    assert coins[..i + 1] == coins[..i] + [coins[i]];
    SelectSnoc(coins[..i], coins[i], criteria);
  }

  /** The selection holds exactly the matching records, in collection order. */
  lemma SelectSpec(coins: seq<Record>, criteria: seq<Criterion>)
    ensures forall r :: r in Select(coins, criteria) <==> r in coins && Matches(r, criteria)
    ensures IsSubsequence(Select(coins, criteria), coins)
  {
    forall r ensures r in Select(coins, criteria) <==> r in coins && Matches(r, criteria) {
      SelectMembership(coins, criteria, r);
    }
    SelectIsSubsequence(coins, criteria);
  }

  /** Searching with two lists of criteria is searching with the first, then the second. */
  lemma {:induction false} SelectConcat(coins: seq<Record>, c1: seq<Criterion>, c2: seq<Criterion>)
    ensures Select(coins, c1 + c2) == Select(Select(coins, c1), c2)
  {
    if coins != [] {
      var init := coins[..|coins| - 1];
      var last := coins[|coins| - 1];
      SelectConcat(init, c1, c2);
      MatchesConcat(last, c1, c2);
      var s1 := Select(init, c1);
      var both := Select(init, c1 + c2);
      assert both == Select(s1, c2);
      assert Select(coins, c1 + c2) == both + (if Matches(last, c1 + c2) then [last] else []);
      if Matches(last, c1) {
        assert Select(coins, c1) == s1 + [last];
        SelectSnoc(s1, last, c2);
      } else {
        assert Select(coins, c1) == s1;
      }
    }
  }

  lemma {:induction false} NotContainedWithoutFirstChar(hay: string, needle: string)
    requires needle != [] && needle[0] !in hay
    ensures !Contains(hay, needle)
  {
    if hay != [] {
      NotContainedWithoutFirstChar(hay[1..], needle);
    }
  }

  lemma EspanaContainsEsp()
    ensures Contains(Lower("España"), Lower("esp"))
  {
    assert Lower("esp") == "esp";
    assert Lower("España") == "españa";
    assert "esp" <= "españa";
  }

  lemma EuroLacksEsp()
    ensures !Contains(Lower("Euro"), Lower("esp"))
  {
    assert Lower("esp") == "esp";
    assert Lower("Euro") == "euro";
    NotContainedWithoutFirstChar("uro", "esp");
    assert "euro"[1..] == "uro";
    assert !("esp" <= "euro") by { assert "euro"[1] != "esp"[1]; }
  }

  /**
   * The same text in two fields does not widen the search to either field: a
   * coin of "España" whose type is "Euro" is not found by "esp" looked up in
   * both the country and the type.
   */
  lemma SearchIsNotDisjunctive()
    ensures var coin := map[Country := Str("España"), Kind := Str("Euro")];
            && Satisfies(coin, (Country, Str("esp")))
            && !Matches(coin, [(Country, Str("esp")), (Kind, Str("esp"))])
  {
    var coin := map[Country := Str("España"), Kind := Str("Euro")];
    assert Get(coin, Country) == Str("España");
    assert Get(coin, Kind) == Str("Euro");
    EspanaContainsEsp();
    EuroLacksEsp();
    var c := [(Country, Str("esp")), (Kind, Str("esp"))];
    assert !Satisfies(coin, c[1]);
  }
}
