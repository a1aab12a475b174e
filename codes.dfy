/**
 * The identifier generator: `PPP-YYYY-NNNNNN`, a country prefix, a year token
 * and a zero-padded sequence one above the largest sequence already used with
 * the same prefix and year.
 */
module Codes {
  import opened Wrappers
  import opened Text
  import opened Coins

  /** `s[:n]`. */
  function Take(s: string, n: nat): string
  {
    if |s| <= n then s else s[..n]
  }

  /**
   * The country prefix: a falsy country gives `XXX`; any other country gives
   * its first three letters, uppercased, which is the empty string when the
   * country has no letters at all.
   */
  function Prefix(country: Value): (p: string)
    ensures !Truthy(country) ==> p == "XXX"
    ensures Truthy(country) ==>
              var letters := Letters(Show(country));
              && |p| == (if |letters| < 3 then |letters| else 3)
              && forall i :: 0 <= i < |p| ==> p[i] == ToUpper(letters[i])
    ensures forall i :: 0 <= i < |p| ==> IsUpperLetter(p[i])
  {
    if Truthy(country) then Take(Upper(Letters(Show(country))), 3) else "XXX"
  }

  /** A non-empty country without a single letter gives an empty prefix, not `XXX`. */
  lemma LetterlessCountryGivesEmptyPrefix(country: Value)
    requires Truthy(country)
    requires forall i :: 0 <= i < |Show(country)| ==> !IsLetter(Show(country)[i])
    ensures Prefix(country) == ""
  {
    LettersOfLetterless(Show(country));
  }

  /**
   * The year argument the add operation hands to the generator: a digit string
   * becomes its integer, an integer (a boolean is one) stays, anything else is
   * `None`.
   */
  function YearArg(v: Value): Option<int>
  {
    match v
    case Str(s) => if |s| > 0 && AllDigits(s) then Some(DigitsValue(s)) else None
    case Int(i) => Some(i)
    case Bool(b) => Some(if b then 1 else 0)
    case Null => None
  }

  /**
   * A digit string is read as the number it spells, and the `""` default of a
   * missing year gives no year.
   */
  lemma YearArgOfDigits(n: nat)
    ensures YearArg(Str(NatToString(n))) == Some(n)
    ensures YearArg(Str("")) == None
  {
    DigitsValueOfNat(n);
  }

  /** The year token: `str(year)` when that has exactly four characters, else `XXXX`. */
  function YearToken(year: Option<int>): (t: string)
    ensures |t| == 4
    ensures year.Some? && |IntToString(year.value)| == 4 ==> t == IntToString(year.value)
    ensures !(year.Some? && |IntToString(year.value)| == 4) ==> t == "XXXX"
  {
    if year.Some? && |IntToString(year.value)| == 4 then IntToString(year.value) else "XXXX"
  }

  /**
   * A year token is `XXXX`, the four digits of a non-negative year, or a minus
   * sign and three digits of a negative one; only the last contains `-`.
   */
  lemma {:induction false} YearTokenShape(year: Option<int>)
    ensures var t := YearToken(year);
            || t == "XXXX"
            || (year.Some? && year.value >= 0 && AllDigits(t))
            || (year.Some? && year.value < 0 && t[0] == '-' && AllDigits(t[1..]))
    ensures '-' in YearToken(year) <==> year.Some? && year.value < 0 && YearToken(year) != "XXXX"
  {
    var t := YearToken(year);
    if t != "XXXX" {
      if year.value < 0 {
        assert t[1..] == NatToString(-year.value);
        assert t[0] == '-';
      } else {
        assert AllDigits(t);
        assert '-' !in t by {
          forall i | 0 <= i < |t| ensures t[i] != '-' {
            assert IsDigit(t[i]);
          }
        }
      }
    }
  }

  /**
   * The sequence an existing record claims for prefix `p` and year token `t`:
   * its identifier text splits on `-` into exactly three parts, the first two
   * equal `p` and `t`, and the third parses as an integer.
   */
  function ClaimedSequence(r: Record, p: string, t: string): Option<int>
  {
    var parts := Split(IdText(r), '-');
    if |parts| == 3 && parts[0] == p && parts[1] == t then ParseInt(parts[2]) else None
  }

  /**
   * `max_secuencial` after scanning `coins`: the largest claimed sequence, or 0
   * when no record claims one.
   */
  function MaxSequence(coins: seq<Record>, p: string, t: string): nat
  {
    if coins == [] then 0
    else
      var m := MaxSequence(coins[..|coins| - 1], p, t);
      match ClaimedSequence(coins[|coins| - 1], p, t)
      case Some(k) => if k > m then k else m
      case None => m
  }

  /** The maximum bounds every claim and is 0 or the claim of some record. */
  lemma {:induction false} MaxSequenceBounds(coins: seq<Record>, p: string, t: string)
    ensures forall i :: 0 <= i < |coins| && ClaimedSequence(coins[i], p, t).Some? ==>
              ClaimedSequence(coins[i], p, t).value <= MaxSequence(coins, p, t)
    ensures var m := MaxSequence(coins, p, t);
            m == 0 || exists i :: 0 <= i < |coins| && ClaimedSequence(coins[i], p, t) == Some(m)
  {
    if coins != [] {
      var init := coins[..|coins| - 1];
      MaxSequenceBounds(init, p, t);
      var m := MaxSequence(init, p, t);
      forall i | 0 <= i < |init| ensures coins[i] == init[i] {
      }
      if m != 0 && MaxSequence(coins, p, t) == m {
        var j :| 0 <= j < |init| && ClaimedSequence(init[j], p, t) == Some(m);
        assert coins[j] == init[j];
      }
    }
  }

  /** One more record scanned: the maximum takes that record's claim into account. */
  lemma MaxSequenceStep(coins: seq<Record>, i: nat, p: string, t: string)
    requires i < |coins|
    ensures var m := MaxSequence(coins[..i], p, t);
            MaxSequence(coins[..i + 1], p, t) ==
              match ClaimedSequence(coins[i], p, t)
              case Some(k) => if k > m then k else m
              case None => m
  {
    assert coins[..i + 1] == coins[..i] + [coins[i]];
    MaxSequenceSnoc(coins[..i], coins[i], p, t);
  }

  /** `f"{n:06d}"`. */
  function SequenceText(n: nat): string
  {
    PadLeft(NatToString(n), 6)
  }

  /** The identifier for prefix `p` and year token `t` given the collection `coins`. */
  function Code(coins: seq<Record>, p: string, t: string): string
  {
    p + "-" + t + "-" + SequenceText(MaxSequence(coins, p, t) + 1)
  }

  /** `generar_codigo_unico(country, year)` against the collection `coins`. */
  function NewCode(coins: seq<Record>, country: Value, year: Option<int>): string
  {
    Code(coins, Prefix(country), YearToken(year))
  }

  lemma SequenceTextShape(n: nat)
    ensures AllDigits(SequenceText(n)) && |SequenceText(n)| >= 6
    ensures '-' !in SequenceText(n)
    ensures ParseInt(SequenceText(n)) == Some(n)
  {
    PaddedRoundTrip(n, 6);
    var s := SequenceText(n);
    forall i | 0 <= i < |s| ensures s[i] != '-' {
      assert IsDigit(s[i]);
    }
  }

  lemma PrefixHasNoDash(country: Value)
    ensures '-' !in Prefix(country)
  {
    var p := Prefix(country);
    forall i | 0 <= i < |p| ensures p[i] != '-' {
      assert IsUpperLetter(p[i]);
    }
  }

  /**
   * When neither the prefix nor the year token contains `-`, the identifier
   * splits back into exactly the prefix, the year token and a digit string of
   * at least six characters denoting the new sequence.
   */
  lemma SplitCodeText(p: string, t: string, n: nat)
    requires '-' !in p && '-' !in t
    ensures Split(p + "-" + t + "-" + SequenceText(n), '-') == [p, t, SequenceText(n)]
  {
    var q := SequenceText(n);
    SequenceTextShape(n);
    var parts := [p, t, q];
    assert forall i :: 0 <= i < |parts| ==> '-' !in parts[i] by {
      assert parts[0] == p && parts[1] == t && parts[2] == q;
    }
    JoinThree(p, t, q, '-');
    SplitJoin(parts, '-');
  }

  lemma CodeParts(coins: seq<Record>, p: string, t: string)
    requires '-' !in p && '-' !in t
    ensures Split(Code(coins, p, t), '-') == [p, t, SequenceText(MaxSequence(coins, p, t) + 1)]
  {
    SplitCodeText(p, t, MaxSequence(coins, p, t) + 1);
  }

  /**
   * The identifier differs from the identifier of every record already in the
   * collection, provided neither the prefix nor the year token contains `-`.
   */
  lemma CodeIsFresh(coins: seq<Record>, p: string, t: string)
    requires '-' !in p && '-' !in t
    ensures forall i :: 0 <= i < |coins| ==> IdText(coins[i]) != Code(coins, p, t)
  {
    MaxSequenceBounds(coins, p, t);
    forall i | 0 <= i < |coins| ensures IdText(coins[i]) != Code(coins, p, t) {
      if IdText(coins[i]) == Code(coins, p, t) {
        ClaimOfCode(coins, p, t, coins[i]);
      }
    }
  }

  /**
   * For a year that is not negative, the generated identifier differs from
   * the identifier of every record in the collection.
   */
  lemma NewCodeIsFresh(coins: seq<Record>, country: Value, year: Option<int>)
    requires year.None? || year.value >= 0
    ensures forall i :: 0 <= i < |coins| ==> IdText(coins[i]) != NewCode(coins, country, year)
  {
    PrefixHasNoDash(country);
    YearTokenShape(year);
    CodeIsFresh(coins, Prefix(country), YearToken(year));
  }

  /**
   * Adding a record that carries the generated identifier advances the next
   * sequence for the same prefix and year by exactly one.
   */
  lemma NextSequenceAfterAdd(coins: seq<Record>, p: string, t: string, r: Record)
    requires '-' !in p && '-' !in t
    requires IdText(r) == Code(coins, p, t)
    ensures MaxSequence(coins + [r], p, t) == MaxSequence(coins, p, t) + 1
  {
    ClaimOfCode(coins, p, t, r);
    MaxSequenceSnoc(coins, r, p, t);
  }

  /** A record carrying the generated identifier claims the next sequence. */
  lemma ClaimOfCode(coins: seq<Record>, p: string, t: string, r: Record)
    requires '-' !in p && '-' !in t
    requires IdText(r) == Code(coins, p, t)
    ensures ClaimedSequence(r, p, t) == Some(MaxSequence(coins, p, t) + 1)
  {
    var n := MaxSequence(coins, p, t) + 1;
    CodeParts(coins, p, t);
    SequenceTextShape(n);
  }

  /** Appending a record: the maximum takes the new record's claim into account. */
  lemma MaxSequenceSnoc(coins: seq<Record>, r: Record, p: string, t: string)
    ensures var m := MaxSequence(coins, p, t);
            MaxSequence(coins + [r], p, t) ==
              match ClaimedSequence(r, p, t)
              case Some(k) => if k > m then k else m
              case None => m
  {
    var c := coins + [r];
    assert c[..|coins|] == coins;
    assert c[|c| - 1] == r;
  }

  /**
   * The generated identifier has the form `PPP-YYYY-NNNNNN`: it splits into a
   * prefix of at most three upper-case letters (or `XXX`), a four-character
   * year token and a digit string of at least six characters; the year token
   * is four digits or `XXXX` for any year that is not negative.
   */
  lemma GeneratedCodeFormat(coins: seq<Record>, country: Value, year: Option<int>)
    requires year.None? || year.value >= 0
    ensures var parts := Split(NewCode(coins, country, year), '-');
            && |parts| == 3
            && parts[0] == Prefix(country) && |parts[0]| <= 3
            && (forall i :: 0 <= i < |parts[0]| ==> IsUpperLetter(parts[0][i]))
            && parts[1] == YearToken(year) && |parts[1]| == 4
            && (parts[1] == "XXXX" || AllDigits(parts[1]))
            && AllDigits(parts[2]) && |parts[2]| >= 6
  {
    var p, t := Prefix(country), YearToken(year);
    var n := MaxSequence(coins, p, t) + 1;
    PrefixHasNoDash(country);
    YearTokenShape(year);
    assert '-' !in t;
    SplitCodeText(p, t, n);
    assert NewCode(coins, country, year) == p + "-" + t + "-" + SequenceText(n);
    SequenceTextShape(n);
  }

  /** The prefix of the example country used below. */
  lemma PrefixOfEspana()
    ensures Prefix(Str("España")) == "ESP"
  {
    assert Letters("a") == "a";
    assert Letters("ña") == "a";
    assert Letters("aña") == "aa";
    assert Letters("paña") == "paa";
    assert Letters("spaña") == "spaa";
    assert Letters("España") == "Espaa";
  }

  /** A negative year of three digits passes the four-character check. */
  lemma NegativeYearToken(year: int)
    requires -999 <= year <= -100
    ensures var t := YearToken(Some(year));
            t == IntToString(year) && t[0] == '-' && '-' !in t[1..]
  {
    var k := -year;
    assert |NatToString(k / 100)| == 1;
    assert |NatToString(k / 10)| == 2;
    assert |NatToString(k)| == 3;
    var d := NatToString(k);
    assert IntToString(year)[1..] == d;
    forall i | 0 <= i < |d| ensures d[i] != '-' {
      assert IsDigit(d[i]);
    }
  }

  /** An identifier whose year token starts with `-` splits into four parts, not three. */
  lemma SplitDashedCodeText(p: string, t: string, n: nat)
    requires '-' !in p && |t| >= 1 && t[0] == '-' && '-' !in t[1..]
    ensures |Split(p + "-" + t + "-" + SequenceText(n), '-')| == 4
  {
    var q := SequenceText(n);
    SequenceTextShape(n);
    SplitWithoutSeparator(q, '-');
    SplitAfterPiece(t[1..], q, '-');
    SplitAfterPiece("", t[1..] + "-" + q, '-');
    SplitAfterPiece(p, "" + "-" + (t[1..] + "-" + q), '-');
    assert t == "-" + t[1..];
    assert p + "-" + t + "-" + q == p + "-" + ("" + "-" + (t[1..] + "-" + q));
  }

  /**
   * For a negative three-digit year the generated identifier, once stored, is
   * never counted (it splits into four parts), so the next coin of the same
   * country and year receives the very same identifier.
   */
  lemma NegativeYearRepeatsCode(coins: seq<Record>, country: Value, year: int, r: Record)
    requires -999 <= year <= -100
    requires IdText(r) == NewCode(coins, country, Some(year))
    ensures NewCode(coins + [r], country, Some(year)) == IdText(r)
  {
    var p, t := Prefix(country), YearToken(Some(year));
    PrefixHasNoDash(country);
    NegativeYearToken(year);
    SplitDashedCodeText(p, t, MaxSequence(coins, p, t) + 1);
    assert ClaimedSequence(r, p, t) == None;
    assert (coins + [r])[..|coins|] == coins;
    assert MaxSequence(coins + [r], p, t) == MaxSequence(coins, p, t);
  }

  /** The concrete case: two coins of "España" minted in -123 get the same identifier. */
  lemma NegativeYearExample(r: Record)
    requires IdText(r) == NewCode([], Str("España"), Some(-123))
    ensures NewCode([r], Str("España"), Some(-123)) == IdText(r)
  {
    NegativeYearRepeatsCode([], Str("España"), -123, r);
    assert [] + [r] == [r];
  }

  /** The year token of the example year used below. */
  lemma YearTokenOf1975()
    ensures YearToken(Some(1975)) == "1975"
  {
    assert NatToString(19) == "19";
    assert NatToString(197) == "197";
    assert NatToString(1975) == "1975";
  }

  lemma SequenceTextOfOne()
    ensures SequenceText(1) == "000001"
  {
    assert NatToString(1) == "1";
    assert Zeros(5) == "00000";
  }

  /** The first coin of a country and year gets sequence 1. */
  lemma FirstCode()
    ensures NewCode([], Str("España"), Some(1975)) == "ESP-1975-000001"
  {
    PrefixOfEspana();
    YearTokenOf1975();
    SequenceTextOfOne();
  }

  /** After the first coin of a prefix and year, the next identifier carries sequence 2. */
  lemma CodeAfterFirst(r: Record, p: string, t: string)
    requires '-' !in p && '-' !in t
    requires IdText(r) == Code([], p, t)
    ensures Code([r], p, t) == p + "-" + t + "-" + "000002"
  {
    assert SequenceText(2) == "000002";
    assert [] + [r] == [r];
    NextSequenceAfterAdd([], p, t, r);
  }
}
