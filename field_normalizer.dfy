/**
 * Normalisation of irregular catalog fields into the output schema:
 * durations to minutes and yes/no flags to "Yes"/"No".
 */
module FieldNormalizer {
  import opened Wrappers
  import opened PyText
  import opened Json
  import opened Seqs

  // ---------------------------------------------------------------------
  // parse_duration_minutes

  /**
   * A falsy value gives 0, an int is returned as is (`True` counts as the int
   * 1), anything else gives the value of the first run of digits in its string
   * form, or 0 when there is none.
   */
  function ParseDurationMinutes(v: Value): (r: int)
    ensures !Truthy(v) ==> r == 0
    ensures v.Int? ==> r == v.i
    ensures !v.Int? ==> r >= 0
    ensures v.Str? ==> r == DigitsValue(FirstDigitRun(v.s))
  {
    if !Truthy(v) then 0
    else
      match v
      case Int(i) => i
      case Bool(_) => 1
      case Str(s) => DigitsValue(FirstDigitRun(s))
      case List(_) => DigitsValue(FirstDigitRun(ToStr(v)))
      case Null => 0
  }

  /** A decimal number followed by a unit (" minutes", "min", ...) reads back as that number. */
  lemma DurationOfNumberWithUnit(n: nat, unit: string)
    requires unit == [] || !IsDigit(unit[0])
    ensures ParseDurationMinutes(Str(DecimalString(n) + unit)) == n
  {
    FirstDigitRunOfNumber(DecimalString(n), unit);
    DecimalRoundTrip(n);
  }

  /** Text without digits in front of the duration does not change it. */
  lemma DurationSkipsText(p: string, s: string)
    requires forall i :: 0 <= i < |p| ==> !IsDigit(p[i])
    ensures ParseDurationMinutes(Str(p + s)) == ParseDurationMinutes(Str(s))
  {
    FirstDigitRunSkips(p, s);
    if s == [] {
      assert p + s == p;
    }
  }

  lemma DurationOfText()
    ensures ParseDurationMinutes(Str("49 minutes")) == 49
  {
    assert DecimalString(49) == "49";
    assert "49 minutes" == DecimalString(49) + " minutes";
    DurationOfNumberWithUnit(49, " minutes");
  }

  lemma DurationAfterText()
    ensures ParseDurationMinutes(Str("Approx. 30 mins")) == 30
  {
    assert DecimalString(30) == "30";
    assert "Approx. 30 mins" == "Approx. " + (DecimalString(30) + " mins");
    DurationOfNumberWithUnit(30, " mins");
    DurationSkipsText("Approx. ", DecimalString(30) + " mins");
  }

  lemma DurationWithoutDigits()
    ensures ParseDurationMinutes(Str("untimed")) == 0
  {
    assert "untimed" == "untimed" + [];
    DurationSkipsText("untimed", []);
  }

  // ---------------------------------------------------------------------
  // normalize_yes_no

  const YesWords: set<string> := {"yes", "y", "true", "1"}

  /** "Yes" exactly when the value is truthy and its stripped, lower-cased text is a yes-word. */
  function NormalizeYesNo(v: Value): (r: string)
    ensures r == "Yes" || r == "No"
    ensures r == "Yes" <==> Truthy(v) && Lower(Strip(ToStr(v))) in YesWords
  {
    if !Truthy(v) then "No"
    else if Lower(Strip(ToStr(v))) in YesWords then "Yes"
    else "No"
  }

  /** Feeding the normalised flag back in gives the same flag. */
  lemma YesNoIdempotent(v: Value)
    ensures NormalizeYesNo(Str(NormalizeYesNo(v))) == NormalizeYesNo(v)
  {
    if NormalizeYesNo(v) == "Yes" {
      YesNoOfYes();
    } else {
      YesNoOfNo();
    }
  }

  /** The flag depends only on the value's truthiness and its stripped, lower-cased text. */
  lemma YesNoByText(v: Value, w: Value)
    requires Truthy(v) == Truthy(w)
    requires Lower(Strip(ToStr(v))) == Lower(Strip(ToStr(w)))
    ensures NormalizeYesNo(v) == NormalizeYesNo(w)
  {
  }

  lemma LowerStripText(s: string)
    ensures Truthy(Str(Lower(s))) == Truthy(Str(s))
    ensures Lower(Strip(ToStr(Str(Lower(s))))) == Lower(Strip(ToStr(Str(s))))
  {
    StripLowerCommute(s);
    LowerIdempotent(Strip(s));
  }

  /** The letter case of a string flag does not matter. */
  lemma YesNoCaseInsensitive(s: string)
    ensures NormalizeYesNo(Str(Lower(s))) == NormalizeYesNo(Str(s))
  {
    LowerStripText(s);
    YesNoByText(Str(Lower(s)), Str(s));
  }

  /** A list is never a yes. */
  lemma YesNoOfList(items: seq<Value>)
    ensures NormalizeYesNo(List(items)) == "No"
  {
    var t := ToStr(List(items));
    StripNoSpace(t);
    var l := Lower(Strip(t));
    assert l[0] == '[';
    assert l !in YesWords by {
      assert l != "yes" && l != "y" && l != "true" && l != "1" by {
        assert "yes"[0] != '[' && "y"[0] != '[' && "true"[0] != '[' && "1"[0] != '[';
      }
    }
  }

  lemma YesNoOfYes()
    ensures NormalizeYesNo(Str("Yes")) == "Yes"
  {
    assert Strip("Yes") == "Yes";
    assert Lower("Yes") == "yes";
  }

  lemma YesNoOfNo()
    ensures NormalizeYesNo(Str("No")) == "No"
  {
    assert Strip("No") == "No";
    assert Lower("No") == "no";
  }

  lemma YesNoOfUpperTrue()
    ensures NormalizeYesNo(Str("TRUE")) == "Yes"
  {
    assert Strip("TRUE") == "TRUE";
    assert Lower("TRUE") == "true";
  }

  lemma StripPaddedY()
    ensures Strip(" y ") == "y"
  {
    assert RStripSpace(" y ") == " y";
    assert LStripSpace(" y") == "y";
  }

  lemma YesNoOfPaddedY()
    ensures NormalizeYesNo(Str(" y ")) == "Yes"
  {
    StripPaddedY();
    assert Lower("y") == "y";
    assert Truthy(Str(" y ")) && ToStr(Str(" y ")) == " y ";
  }

  lemma YesNoOfOne()
    ensures NormalizeYesNo(Int(1)) == "Yes"
  {
    assert IntString(1) == "1";
    assert Strip("1") == "1";
    assert Lower("1") == "1";
  }
}
