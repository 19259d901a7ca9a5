/** The display names of a doctor (app/doctor/model.py): `full_name`,
    `short_name` and `__str__`. The three name columns are nullable; a name
    counts only when it is present and non-empty, as Python's truth test
    has it. */
module DoctorNames {
  import opened Wrappers
  import opened Text

  datatype Doctor = Doctor(id: int, firstName: Option<string>, middleName: Option<string>, lastName: Option<string>)

  /** Python truthiness of a nullable string column. */
  predicate Truthy(s: Option<string>) {
    s.Some? && s.value != ""
  }

  /** What `f"{name}"` shows for a name that is used only when truthy. */
  function Shown(s: Option<string>): string {
    if s.Some? then s.value else ""
  }

  /** The fallback formats `id`, which inside the method body is Python's
      builtin function rather than the doctor's key, so it renders as the
      builtin's own text. */
  const BuiltinIdText: string := "<built-in function id>"
  const Fallback: string := "Doctor " + BuiltinIdText

  /** "last  first middle" (two spaces after the last name, and an empty
      middle part when there is none), or the fallback when the last or the
      first name is missing. */
  function FullName(d: Doctor): (r: string)
    ensures !(Truthy(d.lastName) && Truthy(d.firstName)) ==> r == Fallback
    ensures Truthy(d.lastName) && Truthy(d.firstName) ==>
      |r| == |d.lastName.value| + |d.firstName.value| + |Shown(d.middleName)| + 3 &&
      r[..|d.lastName.value|] == d.lastName.value
  {
    if Truthy(d.lastName) && Truthy(d.firstName) then
      d.lastName.value + "  " + d.firstName.value + " " + (if Truthy(d.middleName) then d.middleName.value else "")
    else
      Fallback
  }

  /** "last  F. M." from the last name and the two initials, or the
      fallback when any of the three names is missing. */
  function ShortName(d: Doctor): (r: string)
    ensures !(Truthy(d.lastName) && Truthy(d.firstName) && Truthy(d.middleName)) ==> r == Fallback
    ensures Truthy(d.lastName) && Truthy(d.firstName) && Truthy(d.middleName) ==>
      |r| == |d.lastName.value| + 7 && r[..|d.lastName.value|] == d.lastName.value && r[|r| - 1] == '.'
  {
    if Truthy(d.lastName) && Truthy(d.firstName) && Truthy(d.middleName) then
      d.lastName.value + "  " + d.firstName.value[..1] + ". " + d.middleName.value[..1] + "."
    else
      Fallback
  }

  /** `__str__`: "D#<key>:<short name>". */
  function Str(d: Doctor): (r: string)
    ensures |r| > |ShortName(d)| + 3 && r[..2] == "D#"
    ensures r[|r| - |ShortName(d)|..] == ShortName(d)
  {
    "D#" + IntToString(d.id) + ":" + ShortName(d)
  }

  /** Every doctor without a last or first name gets the same full name,
      whatever its key. */
  lemma FallbackSameForAll(d1: Doctor, d2: Doctor)
    requires !(Truthy(d1.lastName) && Truthy(d1.firstName))
    requires !(Truthy(d2.lastName) && Truthy(d2.firstName))
    ensures FullName(d1) == FullName(d2) && ShortName(d1) == ShortName(d2)
  {
  }

  predicate HasDoubleSpace(s: string) {
    exists i :: 0 <= i < |s| - 1 && s[i] == ' ' && s[i + 1] == ' '
  }

  /** A formatted name always holds two spaces in a row after the last name;
      the fallback never does, so the two cannot be confused. */
  lemma NamedIsNotFallback(d: Doctor)
    requires Truthy(d.lastName) && Truthy(d.firstName)
    ensures FullName(d) != Fallback
    ensures Truthy(d.middleName) ==> ShortName(d) != Fallback
  {
    var n := |d.lastName.value|;
    var full := FullName(d);
    assert full[n] == ' ' && full[n + 1] == ' ';
    assert HasDoubleSpace(full);
    assert !HasDoubleSpace(Fallback) by {
      forall i | 0 <= i < |Fallback| - 1 && Fallback[i] == ' ' ensures Fallback[i + 1] != ' ' {
        assert i == 6 || i == 16 || i == 25;
      }
    }
    if Truthy(d.middleName) {
      var short := ShortName(d);
      assert short[n] == ' ' && short[n + 1] == ' ';
      assert HasDoubleSpace(short);
    }
  }

  /** With no middle name the full name ends in the separator space. */
  lemma FullNameTrailingSpace(d: Doctor)
    requires Truthy(d.lastName) && Truthy(d.firstName) && !Truthy(d.middleName)
    ensures FullName(d)[|FullName(d)| - 1] == ' '
    ensures FullName(d) == d.lastName.value + "  " + d.firstName.value + " "
  {
  }

  /** The full name carries the first name whole after the two spaces, and
      the middle name (if any) last, after one more space. */
  lemma FullNameParts(d: Doctor)
    requires Truthy(d.lastName) && Truthy(d.firstName)
    ensures var n, f := |d.lastName.value|, |d.firstName.value|;
      var r := FullName(d);
      r[n..n + 2] == "  " && r[n + 2..n + 2 + f] == d.firstName.value &&
      r[n + 2 + f] == ' ' && r[n + 3 + f..] == (if Truthy(d.middleName) then d.middleName.value else "")
  {
  }

  /** The short name carries the two initials at fixed places after the last
      name: "  F. M.". */
  lemma ShortNameInitials(d: Doctor)
    requires Truthy(d.lastName) && Truthy(d.firstName) && Truthy(d.middleName)
    ensures var n := |d.lastName.value|;
      var r := ShortName(d);
      r[n..] == "  " + [d.firstName.value[0]] + ". " + [d.middleName.value[0]] + "."
  {
  }

  /** A short name needs the middle name, the full name does not: a doctor
      with last and first names only has a real full name and the fallback
      short name. */
  lemma ShortNameNeedsMiddle(d: Doctor)
    requires Truthy(d.lastName) && Truthy(d.firstName) && !Truthy(d.middleName)
    ensures ShortName(d) == Fallback && FullName(d) != Fallback
  {
    NamedIsNotFallback(d);
  }

  /** Reads a `__str__` text back into the key and the short name. */
  function ParseTag(s: string): (r: Option<(int, string)>)
    ensures r.Some? ==> |s| > 2 && s[..2] == "D#"
  {
    if |s| < 2 || s[..2] != "D#" then None
    else
      match IndexOf(s[2..], ':')
      case None => None
      case Some(i) =>
        match ParseInt(s[2..][..i])
        case None => None
        case Some(id) => Some((id, s[2..][i + 1..]))
  }

  /** `__str__` loses nothing: the key and the short name can be read back. */
  lemma ParseTagOfStr(d: Doctor)
    ensures ParseTag(Str(d)) == Some((d.id, ShortName(d)))
  {
    var k := IntToString(d.id);
    var s := Str(d);
    IntToStringHasNo(d.id, ':');
    assert s[2..] == k + [':'] + ShortName(d);
    IndexOfJoin(k, ':', ShortName(d));
    assert s[2..][..|k|] == k;
    ParseIntToString(d.id);
  }

  /** The fallback as evidently intended, naming the doctor's own key. */
  function FullNameById(d: Doctor): (r: string)
    ensures Truthy(d.lastName) && Truthy(d.firstName) ==> r == FullName(d)
    ensures !(Truthy(d.lastName) && Truthy(d.firstName)) ==> |r| > 7 && r[..7] == "Doctor " && ParseInt(r[7..]) == Some(d.id)
  {
    if Truthy(d.lastName) && Truthy(d.firstName) then FullName(d)
    else
      ParseIntToString(d.id);
      assert ("Doctor " + IntToString(d.id))[7..] == IntToString(d.id);
      "Doctor " + IntToString(d.id)
  }

  /** With the intended fallback, two unnamed doctors with different keys
      get different names. */
  lemma FullNameByIdDistinguishes(d1: Doctor, d2: Doctor)
    requires !(Truthy(d1.lastName) && Truthy(d1.firstName))
    requires !(Truthy(d2.lastName) && Truthy(d2.firstName))
    requires d1.id != d2.id
    ensures FullNameById(d1) != FullNameById(d2)
  {
  }
}
