/**
 * The suggested number for a new claim (GET /api/approvals/next-id, server.js:592-605):
 * `ZFL`, the current year, and a serial of at least two digits, one more than the
 * highest serial of the year already stored.
 */
module NextId {
  import opened Text

  /** `ZFL` followed by the year in decimal. */
  function IdPrefix(year: nat): (p: string)
    ensures |p| >= 4 && p[..3] == "ZFL" && AllDigits(p[3..])
  {
    "ZFL" + NatToDecimal(year)
  }

  /**
   * `u` is the prefix followed by digits only: exactly two of them when `exactlyTwo`
   * (the query's `^ZFL<year>\d{2}$`), at least two otherwise.
   */
  predicate Serial(u: string, prefix: string, exactlyTwo: bool) {
    |u| >= |prefix| + 2 && (exactlyTwo ==> |u| == |prefix| + 2)
    && u[..|prefix|] == prefix && AllDigits(u[|prefix|..])
  }

  /** `parseInt(u.slice(prefix.length), 10)` for a serial. */
  function SerialValue(u: string, prefix: string): nat
    requires |prefix| <= |u| && AllDigits(u[|prefix|..])
  {
    DecimalValue(u[|prefix|..])
  }

  /**
   * The highest serial value among the stored numbers, 0 when there is none. For the
   * two-digit pattern all matching numbers have the same length, so the query's
   * descending string sort puts the numerically highest first.
   */
  function MaxSerial(numbers: seq<string>, prefix: string, exactlyTwo: bool): (m: nat)
    ensures forall u :: u in numbers && Serial(u, prefix, exactlyTwo) ==> SerialValue(u, prefix) <= m
    ensures m == 0 || exists u :: u in numbers && Serial(u, prefix, exactlyTwo) && SerialValue(u, prefix) == m
  {
    if numbers == [] then 0
    else
      var rest := MaxSerial(numbers[1..], prefix, exactlyTwo);
      if Serial(numbers[0], prefix, exactlyTwo) && SerialValue(numbers[0], prefix) > rest
      then SerialValue(numbers[0], prefix)
      else rest
  }

  /** `String(n).padStart(2, '0')` reads back as `n` and has at least two digits. */
  lemma PaddedDecimal(n: nat)
    ensures var d := PadStart2(NatToDecimal(n));
      |d| >= 2 && AllDigits(d) && DecimalValue(d) == n
  {
    var s := NatToDecimal(n);
    DecimalRoundTrip(n);
    if |s| == 1 {
      LeadingZeroValue(s);
    }
  }

  /** The number the endpoint suggests, as written: the serial after the highest two-digit one. */
  function NextIdAsWritten(year: nat, numbers: seq<string>): string {
    var p := IdPrefix(year);
    p + PadStart2(NatToDecimal(MaxSerial(numbers, p, true) + 1))
  }

  /** The corrected suggestion: the serial after the highest one of any length. */
  function NextId(year: nat, numbers: seq<string>): string {
    var p := IdPrefix(year);
    p + PadStart2(NatToDecimal(MaxSerial(numbers, p, false) + 1))
  }

  /** The suggestion is a serial of the year whose value is `m + 1`. */
  lemma SuggestionIsSerial(year: nat, m: nat, exactlyTwo: bool)
    requires exactlyTwo ==> m < 99
    ensures var p := IdPrefix(year);
      var u := p + PadStart2(NatToDecimal(m + 1));
      Serial(u, p, exactlyTwo) && SerialValue(u, p) == m + 1
  {
    var p := IdPrefix(year);
    var d := PadStart2(NatToDecimal(m + 1));
    PaddedDecimal(m + 1);
    assert (p + d)[..|p|] == p && (p + d)[|p|..] == d;
    if exactlyTwo {
      assert |NatToDecimal(m + 1)| <= 2 by {
        if m + 1 >= 10 {
          assert |NatToDecimal((m + 1) / 10)| == 1;
        }
      }
    }
  }

  /** With no claim of the year yet the first suggestion is serial `01`. */
  lemma FirstOfTheYear(year: nat)
    ensures NextId(year, []) == IdPrefix(year) + "01"
    ensures NextIdAsWritten(year, []) == IdPrefix(year) + "01"
  {
    assert NatToDecimal(1) == "1";
  }

  /** The corrected suggestion is never a number already stored. */
  lemma NextIdFresh(year: nat, numbers: seq<string>)
    ensures NextId(year, numbers) !in numbers
  {
    var p := IdPrefix(year);
    var m := MaxSerial(numbers, p, false);
    SuggestionIsSerial(year, m, false);
  }

  /** As written, the suggestion is fresh as long as the two-digit serials have not reached 99. */
  lemma NextIdAsWrittenFreshBelow99(year: nat, numbers: seq<string>)
    requires MaxSerial(numbers, IdPrefix(year), true) < 99
    ensures NextIdAsWritten(year, numbers) !in numbers
  {
    var p := IdPrefix(year);
    SuggestionIsSerial(year, MaxSerial(numbers, p, true), true);
  }

  lemma Prefix2025()
    ensures IdPrefix(2025) == "ZFL2025"
  {
    assert NatToDecimal(2025) == "2025" by {
      assert NatToDecimal(202) == "202" by {
        assert NatToDecimal(20) == "20";
      }
    }
  }

  lemma SerialsAround99()
    ensures NatToDecimal(100) == "100" && NatToDecimal(101) == "101"
    ensures DecimalValue("99") == 99 && DecimalValue("100") == 100
  {
    assert NatToDecimal(10) == "10";
    assert "99"[..1] == "9";
    assert "100"[..2] == "10";
    assert "10"[..1] == "1";
  }

  lemma MaxSerialsAround99()
    ensures MaxSerial(["ZFL202599", "ZFL2025100"], "ZFL2025", true) == 99
    ensures MaxSerial(["ZFL202599", "ZFL2025100"], "ZFL2025", false) == 100
  {
    SerialsAround99();
    var numbers, p := ["ZFL202599", "ZFL2025100"], "ZFL2025";
    var tail := numbers[1..];
    assert tail == ["ZFL2025100"] && tail[1..] == [];
    assert numbers[0][|p|..] == "99" && numbers[1][|p|..] == "100";
    assert Serial(numbers[0], p, true) && SerialValue(numbers[0], p) == 99;
    assert MaxSerial(tail, p, true) == 0 by {
      assert !Serial(tail[0], p, true);
    }
    assert MaxSerial(tail, p, false) == 100 by {
      assert Serial(tail[0], p, false) && SerialValue(tail[0], p) == 100;
    }
  }

  /**
   * As written, the serial after 99 repeats: `ZFL2025100` has three digits, so the
   * query never sees it and keeps answering 99 + 1.
   */
  lemma RepeatAfter99AsWritten()
    ensures var numbers := ["ZFL202599", "ZFL2025100"];
      NextIdAsWritten(2025, numbers) == "ZFL2025100" && NextIdAsWritten(2025, numbers) in numbers
      && NextId(2025, numbers) == "ZFL2025101"
  {
    Prefix2025();
    MaxSerialsAround99();
    SerialsAround99();
    assert PadStart2("100") == "100" && PadStart2("101") == "101";
    assert NextIdAsWritten(2025, ["ZFL202599", "ZFL2025100"]) == "ZFL2025" + "100";
    assert NextId(2025, ["ZFL202599", "ZFL2025100"]) == "ZFL2025" + "101";
  }
}
