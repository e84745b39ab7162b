/**
 * The details tab: birthday (`DD-MM`) and age fields derived from the stored date of
 * birth and turned back into one on save, and the phone number shown with a `+`.
 */
module DetailsTab {
  import opened Wrappers
  import opened Text
  import opened JsNumbers
  import opened Calendar
  import opened Records

  // ---------------------------------------------------------------- phone number

  /** JavaScript truthiness of an optional text. */
  predicate Truthy(s: Option<string>) {
    s.Some? && s.value != []
  }

  /** The field's first value: the stored number with `+` in front, or `""` without one. */
  function InitialPhone(stored: Option<string>): (r: string)
    ensures Truthy(stored) ==> |r| == |stored.value| + 1 && r[0] == '+' && r[1..] == stored.value
    ensures !Truthy(stored) ==> r == []
  {
    if Truthy(stored) then "+" + stored.value else ""
  }

  /** `replace(/^\+/, '')`: one leading `+` goes, any others stay. */
  function StripPlus(s: string): (r: string)
    ensures |s| > 0 && s[0] == '+' ==> s == "+" + r
    ensures !(|s| > 0 && s[0] == '+') ==> r == s
  {
    if |s| > 0 && s[0] == '+' then s[1..] else s
  }

  /** The column value saved from the field: `null` for an empty field. */
  function SavedPhone(field: string): (r: Option<string>)
    ensures r.None? <==> field == []
    ensures r.Some? ==> r.value == StripPlus(field)
  {
    if field == [] then None else Some(StripPlus(field))
  }

  /**
   * Showing a stored number and saving it unedited stores it again (a missing or empty
   * number is saved as `null`), even when it already starts with `+`.
   */
  lemma PhoneRoundTrip(stored: Option<string>)
    ensures SavedPhone(InitialPhone(stored)) == if Truthy(stored) then stored else None
  {
    if Truthy(stored) {
      assert InitialPhone(stored)[1..] == stored.value;
    }
  }

  // ---------------------------------------------------------------- birthday and age

  /**
   * The effect run for a stored date of birth: `DD-MM` and the plain year difference
   * (no correction for a birthday still ahead); a text that is not a date shows as
   * `NaN-NaN` and `NaN`. `None` means no date of birth: the fields keep their values.
   */
  function LoadedFields(dateOfBirth: Option<string>, currentYear: int): (r: Option<(string, string)>)
    ensures r.Some? <==> Truthy(dateOfBirth)
    ensures r.Some? && ParseIso(dateOfBirth.value).Some? ==>
      var d := ParseIso(dateOfBirth.value).value;
      r.value == (Pad2(d.day) + "-" + Pad2(d.month), IntToString(currentYear - d.year))
    ensures r.Some? && ParseIso(dateOfBirth.value).None? ==> r.value == ("NaN-NaN", "NaN")
  {
    if !Truthy(dateOfBirth) then None
    else
      match ParseIso(dateOfBirth.value)
      case None => Some(("NaN-NaN", "NaN"))
      case Some(d) => Some((Pad2(d.day) + "-" + Pad2(d.month), IntToString(currentYear - d.year)))
  }

  /**
   * `calculateDateOfBirth`: `""` when either field is empty; otherwise the year
   * `currentYear - parseInt(age)`, then the second and first `-`-separated parts of
   * the birthday as numbers padded to two digits, joined by `-`.
   */
  function CalculateDateOfBirth(birthday: string, age: string, currentYear: int): (r: string)
    ensures r == [] <==> birthday == [] || age == []
  {
    if birthday == [] || age == [] then ""
    else
      var parts := Split(birthday, '-');
      var day := ParseInt(parts[0]);
      var month := if |parts| >= 2 then ParseInt(parts[1]) else Undefined;
      var birthYear := Minus(Int(currentYear), ParseInt(age));
      Show(birthYear) + "-" + PadStart(Show(month), 2, '0') + "-" + PadStart(Show(day), 2, '0')
  }

  lemma DigitsHaveNoDash(s: string)
    requires AllDigits(s)
    ensures '-' !in s
  {
  }

  /** A short `DD-MM` splits back into its day and month fields. */
  lemma SplitBirthday(d: Date)
    requires ValidDate(d)
    ensures Split(Pad2(d.day) + "-" + Pad2(d.month), '-') == [Pad2(d.day), Pad2(d.month)]
  {
    PaddedDigits(d.day, 2);
    PaddedDigits(d.month, 2);
    DigitsHaveNoDash(Pad2(d.day));
    DigitsHaveNoDash(Pad2(d.month));
    var dd, mm := Pad2(d.day), Pad2(d.month);
    SplitTwo(dd, mm, '-');
    assert dd + "-" + mm == dd + ['-'] + mm;
  }

  /** A four-digit year needs no padding. */
  lemma FourDigitYear(y: int)
    requires 1000 <= y <= 9999
    ensures PadStart(NatToString(y), 4, '0') == NatToString(y)
  {
    NatToStringLength(y, 3);
  }

  /** Saving fields that read as a day, a month and an age gives the unpadded year, then both padded. */
  lemma CalculateOfFields(birthday: string, dayText: string, monthText: string, age: string,
                          currentYear: int, d: Date)
    requires birthday != [] && age != [] && Split(birthday, '-') == [dayText, monthText]
    requires 0 <= d.year && 0 <= d.month && 0 <= d.day
    requires ParseInt(dayText) == Int(d.day) && ParseInt(monthText) == Int(d.month)
    requires ParseInt(age) == Int(currentYear - d.year)
    ensures CalculateDateOfBirth(birthday, age, currentYear)
      == NatToString(d.year) + "-" + Pad2(d.month) + "-" + Pad2(d.day)
  {
    assert Minus(Int(currentYear), ParseInt(age)) == Int(d.year);
  }

  /**
   * Loading a stored date of birth with a four-digit year and saving the derived
   * fields unedited stores the same `YYYY-MM-DD` text, whatever the current year.
   */
  lemma {:induction false} LoadThenSave(d: Date, currentYear: int)
    requires ValidDate(d) && 1000 <= d.year <= 9999
    ensures var fields := LoadedFields(Some(FormatIso(d)), currentYear);
      fields.Some? && CalculateDateOfBirth(fields.value.0, fields.value.1, currentYear) == FormatIso(d)
  {
    ParseFormatIso(d);
    var birthday, age := Pad2(d.day) + "-" + Pad2(d.month), IntToString(currentYear - d.year);
    assert LoadedFields(Some(FormatIso(d)), currentYear) == Some((birthday, age));
    SplitBirthday(d);
    ParseIntOfPadded(d.day, 2);
    ParseIntOfPadded(d.month, 2);
    ParseIntOfIntToString(currentYear - d.year);
    CalculateOfFields(birthday, Pad2(d.day), Pad2(d.month), age, currentYear, d);
    FourDigitYear(d.year);
  }

  /** The round trip in terms of dates: the saved text reads back as the same day. */
  lemma LoadThenSaveDate(d: Date, currentYear: int)
    requires ValidDate(d) && 1000 <= d.year <= 9999
    ensures var fields := LoadedFields(Some(FormatIso(d)), currentYear);
      fields.Some? && ParseIso(CalculateDateOfBirth(fields.value.0, fields.value.1, currentYear)) == Some(d)
  {
    LoadThenSave(d, currentYear);
    ParseFormatIso(d);
  }

  // ---------------------------------------------------------------- the tab

  /** The columns `handleSave` sends. */
  datatype DetailsUpdate = DetailsUpdate(dateOfBirth: string, bio: string, phoneNumber: Option<string>)

  class Tab {
    const giftee: Giftee
    /** The year of the clock when the tab was opened. */
    const currentYear: int
    var birthday: string
    var age: string
    var bio: string
    var phoneNumber: string

    constructor (g: Giftee, year: int)
      ensures giftee == g && currentYear == year
      ensures LoadedFields(g.dateOfBirth, year).Some? ==> (birthday, age) == LoadedFields(g.dateOfBirth, year).value
      ensures LoadedFields(g.dateOfBirth, year).None? ==> birthday == [] && age == []
      ensures bio == g.bio.GetOr("") && phoneNumber == InitialPhone(g.phoneNumber)
    {
      giftee := g;
      currentYear := year;
      bio := g.bio.GetOr("");
      phoneNumber := InitialPhone(g.phoneNumber);
      birthday, age := "", "";
      var fields := LoadedFields(g.dateOfBirth, year);
      if fields.Some? {
        birthday, age := fields.value.0, fields.value.1;
      }
    }

    method Edit(newBirthday: string, newAge: string, newBio: string, newPhone: string)
      modifies this
      ensures birthday == newBirthday && age == newAge && bio == newBio && phoneNumber == newPhone
    {
      birthday, age, bio, phoneNumber := newBirthday, newAge, newBio, newPhone;
    }

    /**
     * `handleSave`: the update sent, and the giftee handed to `onClose(true, …)`, which
     * happens only when the update succeeds; that giftee differs from the original in
     * the three saved columns only.
     */
    method HandleSave(updateOk: bool) returns (update: DetailsUpdate, closed: Option<Giftee>)
      ensures update.dateOfBirth == CalculateDateOfBirth(birthday, age, currentYear)
      ensures update.bio == bio && update.phoneNumber == SavedPhone(phoneNumber)
      ensures closed.Some? <==> updateOk
      ensures closed.Some? ==> (closed.value.id == giftee.id && closed.value.name == giftee.name
        && closed.value.onChristmas == giftee.onChristmas && closed.value.onBirthday == giftee.onBirthday
        && closed.value.ideas == giftee.ideas
        && closed.value.dateOfBirth == Some(update.dateOfBirth) && closed.value.bio == Some(update.bio)
        && closed.value.phoneNumber == update.phoneNumber)
    {
      var dob := CalculateDateOfBirth(birthday, age, currentYear);
      update := DetailsUpdate(dob, bio, SavedPhone(phoneNumber));
      closed := None;
      if updateOk {
        closed := Some(giftee.(dateOfBirth := Some(dob), bio := Some(bio), phoneNumber := update.phoneNumber));
      }
    }
  }
}
