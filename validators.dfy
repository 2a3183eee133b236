/**
 * The input checks of the booking dialogue: the vehicle as a make and a
 * model, the year of manufacture, the VIN and the phone number. Each check
 * returns the value the handler stores, or says why the input was refused.
 * Digits and letter case are the ASCII ones.
 */
module Validators {
  import opened Wrappers
  import opened Text

  /** `[A-Za-zА-Яа-яЁё]`: the Latin letters, the Cyrillic `А`..`я` block, `Ё` and `ё`. */
  predicate IsLetter(c: char)
  {
    ('A' <= c <= 'Z') || ('a' <= c <= 'z') || ('\U{0410}' <= c <= '\U{044F}') || c == '\U{0401}' || c == '\U{0451}'
  }

  /** One or more characters, all letters. */
  predicate AllLetters(s: string)
  {
    |s| > 0 && forall i :: 0 <= i < |s| ==> IsLetter(s[i])
  }

  /** One or more characters, all letters or digits. */
  predicate AllLettersOrDigits(s: string)
  {
    |s| > 0 && forall i :: 0 <= i < |s| ==> IsLetter(s[i]) || IsDigit(s[i])
  }

  lemma LetterIsNotSpace(c: char)
    requires IsLetter(c) || IsDigit(c)
    ensures !IsSpace(c)
  {
  }

  /** The position of the first white-space character, or the length when there is none. */
  function FirstSpace(s: string): (i: nat)
    ensures i <= |s|
    ensures i < |s| ==> IsSpace(s[i])
    ensures forall j :: 0 <= j < i ==> !IsSpace(s[j])
    decreases |s|
  {
    if |s| == 0 || IsSpace(s[0]) then 0 else 1 + FirstSpace(s[1..])
  }

  /**
   * `s.split(maxsplit=1)`: the first white-space-delimited word and, when
   * anything but white space follows it, the rest with its leading white
   * space removed.
   */
  function SplitOnce(s: string): (parts: seq<string>)
    ensures |parts| <= 2
  {
    var t := TrimStart(s);
    if |t| == 0 then []
    else
      var i := FirstSpace(t);
      if i == |t| then [t]
      else
        var rest := TrimStart(t[i..]);
        if |rest| == 0 then [t[..i]] else [t[..i], rest]
  }

  /** The outcome of `get_auto`'s checks, one refusal per error message it can send. */
  datatype VehicleCheck =
    | Vehicle(make: string, model: string)
    | NotTwoWords
    | MakeNotLetters
    | ModelNotLettersOrDigits

  /** The checks of `get_auto`, in their order, on the stripped message. */
  function CheckVehicle(text: string): (r: VehicleCheck)
    ensures r.Vehicle? ==> AllLetters(r.make) && AllLettersOrDigits(r.model)
  {
    var parts := SplitOnce(Strip(text));
    if |parts| < 2 then NotTwoWords
    else if !AllLetters(parts[0]) then MakeNotLetters
    else if !AllLettersOrDigits(parts[1]) then ModelNotLettersOrDigits
    else Vehicle(parts[0], parts[1])
  }

  /** What `get_auto` stores: the make and the model joined by one space. */
  function StoredVehicle(v: VehicleCheck): string
    requires v.Vehicle?
  {
    v.make + " " + v.model
  }

  /** No white space anywhere in s. */
  predicate NoSpace(s: string)
  {
    forall i :: 0 <= i < |s| ==> !IsSpace(s[i])
  }

  /** The first white space of a word followed by white space is right after the word. */
  lemma FirstSpaceOf(w: string, rest: string)
    requires NoSpace(w)
    requires |rest| > 0 && IsSpace(rest[0])
    ensures FirstSpace(w + rest) == |w|
  {
    var s := w + rest;
    assert s[|w|] == rest[0];
    assert forall j :: 0 <= j < |w| ==> s[j] == w[j];
  }

  /** A first word, a run of white space and a rest, padded by white space, strip to themselves. */
  lemma StripTwoWords(a: string, word: string, sep: string, rest: string, b: string)
    requires AllSpace(a) && AllSpace(b)
    requires |word| > 0 && NoSpace(word)
    requires |rest| > 0 && !IsSpace(rest[|rest| - 1])
    ensures Strip(a + word + sep + rest + b) == word + sep + rest
  {
    var t := word + sep + rest;
    assert t[0] == word[0] && t[|t| - 1] == rest[|rest| - 1];
    assert a + word + sep + rest + b == a + t + b;
    StripPadded(a, t, b);
  }

  /**
   * A first word, a non-empty run of white space and a rest that starts with
   * something else: `split(maxsplit=1)` gives back the word and the rest.
   */
  lemma SplitOnceOf(word: string, sep: string, rest: string)
    requires AllSpace(sep) && |sep| > 0
    requires |word| > 0 && NoSpace(word)
    requires |rest| > 0 && !IsSpace(rest[0])
    ensures SplitOnce(word + sep + rest) == [word, rest]
  {
    var t := word + sep + rest;
    assert t == word + (sep + rest);
    assert TrimStart(t) == t by {
      assert t[0] == word[0];
    }
    FirstSpaceOf(word, sep + rest);
    assert t[|word|..] == sep + rest;
    assert t[..|word|] == word;
    TrimStartPadded(sep, rest);
  }

  /** A single word, with any white space around it, does not split in two. */
  lemma SplitOnceOneWord(a: string, word: string, b: string)
    requires AllSpace(a) && AllSpace(b) && |word| > 0 && NoSpace(word)
    ensures Strip(a + word + b) == word
    ensures SplitOnce(word) == [word]
  {
    StripPadded(a, word, b);
    TrimStartPadded([], word);
    assert [] + word == word;
  }

  /**
   * Completeness: a make of letters and a model of letters and digits,
   * separated by any non-empty run of white space and padded by any, is
   * accepted and split back into that make and that model.
   */
  lemma VehicleAccepted(a: string, make: string, sep: string, model: string, b: string)
    requires AllSpace(a) && AllSpace(sep) && |sep| > 0 && AllSpace(b)
    requires AllLetters(make) && AllLettersOrDigits(model)
    ensures CheckVehicle(a + make + sep + model + b) == Vehicle(make, model)
  {
    LettersHaveNoSpace(make);
    LettersHaveNoSpace(model);
    StripTwoWords(a, make, sep, model, b);
    SplitOnceOf(make, sep, model);
  }

  /** Letters and digits are not white space. */
  lemma LettersHaveNoSpace(s: string)
    requires forall i :: 0 <= i < |s| ==> IsLetter(s[i]) || IsDigit(s[i])
    ensures NoSpace(s)
  {
    forall i | 0 <= i < |s| ensures !IsSpace(s[i]) {
      LetterIsNotSpace(s[i]);
    }
  }

  /** A message that is one word is refused, whatever the word. */
  lemma OneWordRefused(a: string, word: string, b: string)
    requires AllSpace(a) && AllSpace(b) && |word| > 0 && NoSpace(word)
    ensures CheckVehicle(a + word + b) == NotTwoWords
  {
    SplitOnceOneWord(a, word, b);
  }

  /** A first word that is not all letters is refused as the make. */
  lemma MakeRefused(a: string, make: string, sep: string, model: string, b: string)
    requires AllSpace(a) && AllSpace(sep) && |sep| > 0 && AllSpace(b)
    requires |make| > 0 && NoSpace(make) && !AllLetters(make)
    requires |model| > 0 && !IsSpace(model[0]) && !IsSpace(model[|model| - 1])
    ensures CheckVehicle(a + make + sep + model + b) == MakeNotLetters
  {
    StripTwoWords(a, make, sep, model, b);
    SplitOnceOf(make, sep, model);
  }

  /** After a make of letters, a rest that is not all letters and digits is refused as the model. */
  lemma ModelRefused(a: string, make: string, sep: string, model: string, b: string)
    requires AllSpace(a) && AllSpace(sep) && |sep| > 0 && AllSpace(b)
    requires AllLetters(make)
    requires |model| > 0 && !IsSpace(model[0]) && !IsSpace(model[|model| - 1]) && !AllLettersOrDigits(model)
    ensures CheckVehicle(a + make + sep + model + b) == ModelNotLettersOrDigits
  {
    LettersHaveNoSpace(make);
    StripTwoWords(a, make, sep, model, b);
    SplitOnceOf(make, sep, model);
  }

  /**
   * `split(maxsplit=1)` of a string with nothing to strip, when it gives two
   * parts: the first word, a non-empty run of white space, and the rest.
   */
  lemma SplitOnceTwoParts(s: string)
    requires Trimmed(s) && |SplitOnce(s)| == 2
    ensures var p := SplitOnce(s);
            && |p[0]| + |p[1]| < |s|
            && s == p[0] + s[|p[0]|..|s| - |p[1]|] + p[1]
            && AllSpace(s[|p[0]|..|s| - |p[1]|])
  {
    assert TrimStart(s) == s by {
      assert !IsSpace(s[0]);
    }
    var i := FirstSpace(s);
    var tail := s[i..];
    var rest := TrimStart(tail);
    assert SplitOnce(s) == [s[..i], rest];
    TrimStartSplits(tail);
    TrimStartDropsSpace(tail);
    var k := |tail| - |rest|;
    assert s == s[..i] + tail[..k] + rest by {
      assert s == s[..i] + tail;
      assert tail == tail[..k] + rest;
    }
    assert s[i..|s| - |rest|] == tail[..k];
  }

  /**
   * Soundness: an accepted message is, once stripped, the make, a non-empty
   * run of white space and the model.
   */
  lemma VehicleSound(text: string)
    requires CheckVehicle(text).Vehicle?
    ensures var v := CheckVehicle(text);
            var s := Strip(text);
            && AllLetters(v.make) && AllLettersOrDigits(v.model)
            && |v.make| + |v.model| < |s|
            && s == v.make + s[|v.make|..|s| - |v.model|] + v.model
            && AllSpace(s[|v.make|..|s| - |v.model|])
  {
    StripIsTrimmed(text);
    SplitOnceTwoParts(Strip(text));
  }

  /** What `get_auto` stores is itself accepted, and splits back to the same make and model. */
  lemma StoredVehicleAccepted(text: string)
    requires CheckVehicle(text).Vehicle?
    ensures CheckVehicle(StoredVehicle(CheckVehicle(text))) == CheckVehicle(text)
  {
    var v := CheckVehicle(text);
    var s := StoredVehicle(v);
    LettersHaveNoSpace(v.make);
    LettersHaveNoSpace(v.model);
    assert s[0] == v.make[0] && s[|s| - 1] == v.model[|v.model| - 1];
    StripTrimmedIsIdentity(s);
    assert AllSpace(" ");
    SplitOnceOf(v.make, " ", v.model);
  }

  /** "Audi A4" is accepted whatever the white space around and between the words. */
  lemma VehicleExampleAccepted(a: string, sep: string, b: string)
    requires AllSpace(a) && AllSpace(sep) && |sep| > 0 && AllSpace(b)
    ensures CheckVehicle(a + "Audi" + sep + "A4" + b) == Vehicle("Audi", "A4")
  {
    var audi, a4 := "Audi", "A4";
    assert forall c | c in audi :: IsLetter(c);
    assert forall i | 0 <= i < |audi| :: audi[i] in audi;
    assert forall c | c in a4 :: IsLetter(c) || IsDigit(c);
    assert forall i | 0 <= i < |a4| :: a4[i] in a4;
    VehicleAccepted(a, audi, sep, a4, b);
  }

  /** "Audi" alone is refused as not two words. */
  lemma VehicleExampleOneWord(a: string, b: string)
    requires AllSpace(a) && AllSpace(b)
    ensures CheckVehicle(a + "Audi" + b) == NotTwoWords
  {
    var audi := "Audi";
    assert forall c | c in audi :: !IsSpace(c);
    assert forall i | 0 <= i < |audi| :: audi[i] in audi;
    OneWordRefused(a, audi, b);
  }

  /** "Audi4 A4" is refused for its make. */
  lemma VehicleExampleBadMake(a: string, sep: string, b: string)
    requires AllSpace(a) && AllSpace(sep) && |sep| > 0 && AllSpace(b)
    ensures CheckVehicle(a + "Audi4" + sep + "A4" + b) == MakeNotLetters
  {
    var audi4 := "Audi4";
    assert forall c | c in audi4 :: !IsSpace(c);
    assert forall i | 0 <= i < |audi4| :: audi4[i] in audi4;
    assert !IsLetter(audi4[4]);
    MakeRefused(a, audi4, sep, "A4", b);
  }

  /** "Audi A-4" is refused for its model. */
  lemma VehicleExampleBadModel(a: string, sep: string, b: string)
    requires AllSpace(a) && AllSpace(sep) && |sep| > 0 && AllSpace(b)
    ensures CheckVehicle(a + "Audi" + sep + "A-4" + b) == ModelNotLettersOrDigits
  {
    var audi, dash := "Audi", "A-4";
    assert forall c | c in audi :: IsLetter(c);
    assert forall i | 0 <= i < |audi| :: audi[i] in audi;
    assert !IsLetter(dash[1]) && !IsDigit(dash[1]);
    ModelRefused(a, audi, sep, dash, b);
  }

  /** `isdigit()`, four characters, and not earlier than 1990. */
  predicate ValidYear(y: string)
  {
    AllDigits(y) && |y| == 4 && DigitsValue(y) >= 1990
  }

  /** The checks of `get_year`, in their order, on the stripped message; the stored value on success. */
  function CheckYear(text: string): (r: Option<string>)
    ensures r.Some? ==> ValidYear(r.value) && |r.value| <= |text|
  {
    var y := Strip(text);
    if !AllDigits(y) || |y| != 4 || DigitsValue(y) < 1990 then None else Some(y)
  }

  /** The value of a four-digit string, digit by digit. */
  lemma FourDigits(y: string)
    requires AllDigits(y) && |y| == 4
    ensures DigitsValue(y) == DigitValue(y[0]) * 1000 + DigitValue(y[1]) * 100 + DigitValue(y[2]) * 10 + DigitValue(y[3])
  {
    assert y[..1][..0] == [];
    assert DigitsValue(y[..1]) == DigitValue(y[0]);
    assert y[..2][..1] == y[..1];
    assert DigitsValue(y[..2]) == DigitsValue(y[..1]) * 10 + DigitValue(y[1]);
    assert y[..3][..2] == y[..2];
    assert DigitsValue(y[..3]) == DigitsValue(y[..2]) * 10 + DigitValue(y[2]);
    assert y[..3] == y[..|y| - 1];
  }

  /** The years accepted are exactly the decimal spellings of 1990 .. 9999. */
  lemma YearIsNumberFrom1990(y: string)
    requires ValidYear(y)
    ensures 1990 <= DigitsValue(y) <= 9999 && NatToString(DigitsValue(y)) == y
  {
    FourDigits(y);
    DigitsValueRoundTrip(y);
  }

  lemma NumberFrom1990IsYear(n: nat)
    requires 1990 <= n <= 9999
    ensures ValidYear(NatToString(n)) && DigitsValue(NatToString(n)) == n
  {
    NatToStringRoundTrip(n);
    var a := n / 10;
    var b := a / 10;
    var c := b / 10;
    assert 1 <= c < 10;
    assert |NatToString(c)| == 1;
    assert |NatToString(b)| == 2;
    assert |NatToString(a)| == 3;
    assert |NatToString(n)| == 4;
  }

  /** `get_year` stores exactly the stripped message when it is a valid year. */
  lemma CheckYearIff(text: string)
    ensures CheckYear(text).Some? <==> ValidYear(Strip(text))
    ensures CheckYear(text).Some? ==> CheckYear(text).value == Strip(text)
  {
  }

  /** "2015" is accepted, with any white space around it; "89", "1980" and "20155" are not. */
  lemma YearExamples(a: string, b: string)
    requires AllSpace(a) && AllSpace(b)
    ensures CheckYear(a + "2015" + b) == Some("2015")
    ensures CheckYear(a + "89" + b) == None
    ensures CheckYear(a + "1980" + b) == None
    ensures CheckYear(a + "20155" + b) == None
  {
    StripPadded(a, "2015", b);
    FourDigits("2015");
    StripPadded(a, "89", b);
    StripPadded(a, "1980", b);
    FourDigits("1980");
    StripPadded(a, "20155", b);
  }

  /** `[A-HJ-NPR-Z0-9]`. */
  predicate IsVinChar(c: char)
  {
    ('A' <= c <= 'H') || ('J' <= c <= 'N') || c == 'P' || ('R' <= c <= 'Z') || IsDigit(c)
  }

  /** The VIN alphabet is the upper-case Latin letters and the digits, without I, O and Q. */
  lemma VinCharIff(c: char)
    ensures IsVinChar(c) <==> (('A' <= c <= 'Z') || IsDigit(c)) && c != 'I' && c != 'O' && c != 'Q'
  {
  }

  predicate ValidVin(v: string)
  {
    |v| == 17 && forall i :: 0 <= i < |v| ==> IsVinChar(v[i])
  }

  /** The checks of `get_vin` on the stripped, uppercased message; the stored value on success. */
  function CheckVin(text: string): (r: Option<string>)
    ensures r.Some? ==> ValidVin(r.value) && forall i :: 0 <= i < |r.value| ==> !('a' <= r.value[i] <= 'z')
  {
    var v := Upper(Strip(text));
    if |v| != 17 || !ValidVin(v) then None else Some(v)
  }

  /** A stripped message holding I, O or Q, in either case, is refused. */
  lemma VinRefusesIOQ(text: string, i: nat)
    requires i < |Strip(text)| && UpperChar(Strip(text)[i]) in {'I', 'O', 'Q'}
    ensures CheckVin(text) == None
  {
    assert Upper(Strip(text))[i] == UpperChar(Strip(text)[i]);
  }

  /** An accepted VIN is stored upper-case, and entering the stored VIN again gives it back unchanged. */
  lemma VinIdempotent(text: string)
    requires CheckVin(text).Some?
    ensures ValidVin(CheckVin(text).value)
    ensures CheckVin(CheckVin(text).value) == CheckVin(text)
  {
    var v := CheckVin(text).value;
    LetterIsNotSpaceVin(v[0]);
    LetterIsNotSpaceVin(v[16]);
    StripTrimmedIsIdentity(v);
    assert Upper(v) == v;
  }

  lemma LetterIsNotSpaceVin(c: char)
    requires IsVinChar(c)
    ensures !IsSpace(c) && UpperChar(c) == c
  {
  }

  /** A message with nothing to strip is accepted when its upper-case form is a VIN, whatever the padding. */
  lemma VinAccepted(a: string, v: string, b: string)
    requires AllSpace(a) && AllSpace(b) && Trimmed(v) && ValidVin(Upper(v))
    ensures CheckVin(a + v + b) == Some(Upper(v))
  {
    StripPadded(a, v, b);
  }

  lemma UpperExample()
    ensures Upper("1hgcm82633a004352") == "1HGCM82633A004352"
  {
    var u := Upper("1hgcm82633a004352");
    var t := "1HGCM82633A004352";
    assert u[0] == t[0] && u[1] == t[1] && u[2] == t[2] && u[3] == t[3];
    assert u[4] == t[4] && u[5] == t[5] && u[6] == t[6] && u[7] == t[7];
    assert u[8] == t[8] && u[9] == t[9] && u[10] == t[10] && u[11] == t[11];
    assert u[12] == t[12] && u[13] == t[13] && u[14] == t[14] && u[15] == t[15] && u[16] == t[16];
  }

  /** A VIN typed in lower case, with white space around it, is accepted and stored upper-case. */
  lemma VinExample(a: string, b: string)
    requires AllSpace(a) && AllSpace(b)
    ensures CheckVin(a + "1hgcm82633a004352" + b) == Some("1HGCM82633A004352")
  {
    var t := "1HGCM82633A004352";
    UpperExample();
    assert forall c | c in t :: IsVinChar(c);
    assert forall i | 0 <= i < |t| :: t[i] in t;
    VinAccepted(a, "1hgcm82633a004352", b);
  }

  /** `\d{9,15}`: nine to fifteen digits. */
  predicate DigitRun(d: string)
  {
    9 <= |d| <= 15 && forall i :: 0 <= i < |d| ==> IsDigit(d[i])
  }

  /** `^\+?\d{9,15}$`: an optional plus sign, then nine to fifteen digits. */
  predicate ValidPhone(p: string)
  {
    if |p| > 0 && p[0] == '+' then DigitRun(p[1..]) else DigitRun(p)
  }

  /** The check of `get_telefon` on the stripped message; the stored value on success. */
  function CheckPhone(text: string): (r: Option<string>)
    ensures r.Some? ==> ValidPhone(r.value) && |r.value| <= |text|
  {
    var p := Strip(text);
    if ValidPhone(p) then Some(p) else None
  }

  /** A phone number is nine to fifteen digits, or a plus sign and ten to sixteen characters in all. */
  lemma PhoneShape(p: string)
    ensures ValidPhone(p) <==>
              (AllDigits(p) && 9 <= |p| <= 15) || (|p| > 0 && p[0] == '+' && AllDigits(p[1..]) && 10 <= |p| <= 16)
  {
    if |p| > 0 && p[0] == '+' {
      assert !IsDigit(p[0]);
      assert !AllDigits(p);
    }
  }

  /** Nine to fifteen digits are accepted with or without a leading plus sign. */
  lemma PhoneAccepted(ds: string)
    requires AllDigits(ds) && 9 <= |ds| <= 15
    ensures ValidPhone(ds) && ValidPhone("+" + ds)
  {
    assert ("+" + ds)[1..] == ds;
  }

  /** "+48123456789" and "123456789" are accepted. */
  lemma PhoneExamplesAccepted()
    ensures ValidPhone("+" + "48123456789") && ValidPhone("123456789")
  {
    var a := "48123456789";
    assert forall c | c in a :: IsDigit(c);
    assert forall i | 0 <= i < |a| :: a[i] in a;
    PhoneAccepted(a);
    var b := "123456789";
    assert forall c | c in b :: IsDigit(c);
    assert forall i | 0 <= i < |b| :: b[i] in b;
  }

  /** Eight or sixteen digits, a plus sign alone and interior spaces are refused. */
  lemma PhoneExamplesRefused()
    ensures !ValidPhone("12345678") && !ValidPhone("1234567890123456") && !ValidPhone("+")
    ensures !ValidPhone("48 123 456 789")
  {
    var p := "48 123 456 789";
    assert p[0] == '4' && !IsDigit(p[2]);
  }
}
