/** The display-name pipelines of the web client: `getDisplayName` in the
    header and the admin panel (components/Header.tsx, components/AdminPanel.tsx),
    the ride card's `creatorName` (components/RideCard.tsx) and the name the
    login derives (contexts/AuthContext.tsx). Each is a chain of
    String.prototype.split / replace / trim over an email address. */
module DisplayName {
  import opened Common

  /** `s.replace(/\d+/g, '')`: every run of digits removed. */
  function StripDigits(s: string): (r: string)
    ensures forall i :: 0 <= i < |r| ==> !IsDigit(r[i])
    ensures SubsequenceOf(r, s)
    ensures forall i :: 0 <= i < |s| && !IsDigit(s[i]) ==> s[i] in r
    ensures |r| == |s| - Count(s, IsDigit)
  {
    FilterIsSubsequence(s, NonDigit);
    CountSplit(s, IsDigit, NonDigit);
    Filter(s, NonDigit)
  }

  predicate NonDigit(c: char) {
    !IsDigit(c)
  }

  /** `s.replace(/[._]/g, ' ')` */
  function DotsToSpaces(s: string): (r: string)
    ensures |r| == |s|
    ensures forall i :: 0 <= i < |s| ==> r[i] == (if s[i] == '.' || s[i] == '_' then ' ' else s[i])
  {
    seq(|s|, i requires 0 <= i < |s| => if s[i] == '.' || s[i] == '_' then ' ' else s[i])
  }

  /** Position `i` matches `\b\w`: a word character at the start of the
      string or right after a non-word character. */
  predicate WordInitial(s: string, i: int)
    requires 0 <= i < |s|
  {
    IsWordChar(s[i]) && (i == 0 || !IsWordChar(s[i - 1]))
  }

  /** `s.replace(/\b\w/g, c => c.toUpperCase())` */
  function CapitalizeWords(s: string): (r: string)
    ensures |r| == |s|
    ensures forall i :: 0 <= i < |s| ==> IsWordChar(r[i]) == IsWordChar(s[i])
    ensures forall i :: 0 <= i < |s| ==> IsSpace(r[i]) == IsSpace(s[i])
    ensures forall i :: 0 <= i < |s| ==> (WordInitial(r, i) <==> WordInitial(s, i))
    ensures forall i :: 0 <= i < |s| && WordInitial(s, i) ==> r[i] == UpperChar(s[i]) && !IsLowerAscii(r[i])
    ensures forall i :: 0 <= i < |s| && !(WordInitial(s, i) && IsLowerAscii(s[i])) ==> r[i] == s[i]
  {
    seq(|s|, i requires 0 <= i < |s| => if WordInitial(s, i) then UpperChar(s[i]) else s[i])
  }

  /** `getDisplayName(email)`: the text before the first "mit", without
      digits, with "." and "_" as spaces, trimmed, each word capitalised. */
  function GetDisplayName(email: string): string {
    CapitalizeWords(Trim(DotsToSpaces(StripDigits(BeforeFirst(email, "mit")))))
  }

  /** No digit, "." or "_". */
  predicate Clean(s: string) {
    forall i :: 0 <= i < |s| ==> !IsDigit(s[i]) && s[i] != '.' && s[i] != '_'
  }

  lemma CleanTrim(d: string)
    requires Clean(d)
    ensures Clean(Trim(d))
  {
    TrimPieceSlice(d);
    var a := |d| - |TrimStart(d)|;
    CleanSlice(d, a, a + |Trim(d)|);
  }

  lemma CleanSlice(d: string, a: nat, b: nat)
    requires Clean(d) && a <= b <= |d|
    ensures Clean(d[a..b])
  {
    forall i | 0 <= i < b - a ensures d[a..b][i] == d[a + i] {
    }
  }

  /** The displayed name has no digit, "." or "_". */
  lemma DisplayNameClean(email: string)
    ensures Clean(GetDisplayName(email))
  {
    var d := DotsToSpaces(StripDigits(BeforeFirst(email, "mit")));
    assert Clean(d);
    CleanTrim(d);
  }

  /** The displayed name has no whitespace at either end. */
  lemma DisplayNameTrimmed(email: string)
    ensures var r := GetDisplayName(email);
            r != [] ==> !IsSpace(r[0]) && !IsSpace(r[|r| - 1])
  {
    var t := Trim(DotsToSpaces(StripDigits(BeforeFirst(email, "mit"))));
    TrimShape(DotsToSpaces(StripDigits(BeforeFirst(email, "mit"))));
    assert t != [] ==> !IsSpace(t[0]) && !IsSpace(t[|t| - 1]);
  }

  /** Every word of the displayed name starts with a capital letter. */
  lemma DisplayNameCapitalized(email: string)
    ensures var r := GetDisplayName(email);
            forall i :: 0 <= i < |r| && WordInitial(r, i) ==> IsUpperAscii(r[i])
  {
    DisplayNameClean(email);
  }

  /** Only the text before the first "mit" matters. */
  lemma DisplayNameUsesLocalPart(email: string)
    ensures GetDisplayName(email) == GetDisplayName(BeforeFirst(email, "mit"))
  {
  }

  /** No proper prefix of "mit" is also a suffix of it, so an occurrence of
      "mit" cannot straddle the end of a text that does not contain it. */
  lemma FirstMitAt(a: string, rest: string)
    requires !Includes(a, "mit")
    ensures BeforeFirst(a + "mit" + rest, "mit") == a
  {
    var s := a + "mit" + rest;
    assert OccursAt(s, "mit", |a|);
    forall j | 0 <= j < |a| ensures !OccursAt(s, "mit", j) {
      if j + 3 <= |a| {
        assert a[j..j + 3] == s[j..j + 3];
        assert !OccursAt(a, "mit", j);
      } else if j + 3 <= |s| {
        assert s[j..j + 3][|a| - j] == s[|a|] == 'm' != "mit"[|a| - j];
      }
    }
    assert IndexOf(s, "mit") == Some(|a|);
    assert s[..|a|] == a;
  }

  /** Whatever follows the first "mit" (the rest of the address) does not
      change the displayed name. */
  lemma DisplayNameIgnoresDomain(a: string, rest: string)
    requires !Includes(a, "mit")
    ensures GetDisplayName(a + "mit" + rest) == GetDisplayName(a)
  {
    FirstMitAt(a, rest);
  }

  /** The ride card's `creatorName`: the same pipeline without the trim, or
      "Unknown" when the creator's email is not a string. */
  function CreatorName(email: JsValue): (r: string)
    ensures !email.JsString? ==> r == "Unknown"
    ensures email.JsString? ==>
              (forall i :: 0 <= i < |r| ==> !IsDigit(r[i]) && r[i] != '.' && r[i] != '_')
              && (forall i :: 0 <= i < |r| && WordInitial(r, i) ==> IsUpperAscii(r[i]))
  {
    match email
    case JsString(s) => CapitalizeWords(DotsToSpaces(StripDigits(BeforeFirst(s, "mit"))))
    case _ => "Unknown"
  }

  /** The card's name differs from the header's only by the trim. */
  lemma CreatorNameTrimmed(email: string)
    ensures Trim(CreatorName(JsString(email))) == GetDisplayName(email)
  {
    var d := DotsToSpaces(StripDigits(BeforeFirst(email, "mit")));
    var c := CapitalizeWords(d);
    TrimCapitalize(d);
  }

  /** Capitalising and trimming commute: capitalising never changes a
      whitespace character and never creates one. */
  lemma TrimCapitalize(d: string)
    ensures Trim(CapitalizeWords(d)) == CapitalizeWords(Trim(d))
  {
    var c := CapitalizeWords(d);
    assert forall i :: 0 <= i < |d| ==> (IsSpace(c[i]) <==> IsSpace(d[i]));
    TrimStartCapitalize(d);
    var t := TrimStart(d);
    var ct := TrimStart(c);
    assert ct == CapitalizeWords(t) || t == [];
    TrimEndCapitalize(t);
  }

  lemma {:induction false} TrimStartCapitalize(d: string)
    ensures TrimStart(CapitalizeWords(d)) == CapitalizeWords(TrimStart(d))
    decreases |d|
  {
    var c := CapitalizeWords(d);
    if d != [] && IsSpace(d[0]) {
      assert c[0] == d[0];
      assert c[1..] == CapitalizeWords(d[1..]) by {
        forall i | 0 <= i < |d| - 1 ensures c[1..][i] == CapitalizeWords(d[1..])[i] {
          assert WordInitial(d, i + 1) == WordInitial(d[1..], i);
        }
      }
      TrimStartCapitalize(d[1..]);
    } else if d != [] {
      assert !IsSpace(c[0]);
    }
  }

  lemma {:induction false} TrimEndCapitalize(d: string)
    ensures TrimEnd(CapitalizeWords(d)) == CapitalizeWords(TrimEnd(d))
    decreases |d|
  {
    var c := CapitalizeWords(d);
    if d != [] && IsSpace(d[|d| - 1]) {
      assert c[|d| - 1] == d[|d| - 1];
      assert c[..|d| - 1] == CapitalizeWords(d[..|d| - 1]);
      TrimEndCapitalize(d[..|d| - 1]);
    } else if d != [] {
      assert !IsSpace(c[|d| - 1]);
    }
  }

  /** The name the login derives: the text before the first "@", with "."
      and "_" as spaces and each word capitalised; digits are kept. */
  function LoginName(email: string): (r: string)
    ensures |r| == |BeforeFirst(email, "@")|
    ensures forall i :: 0 <= i < |r| ==> r[i] != '.' && r[i] != '_' && r[i] != '@'
    ensures forall i :: 0 <= i < |r| && WordInitial(r, i) ==> !IsLowerAscii(r[i])
    ensures var local := BeforeFirst(email, "@");
            forall i :: 0 <= i < |r| ==>
              (local[i] == '.' || local[i] == '_' ==> r[i] == ' ')
              && (IsDigit(local[i]) ==> r[i] == local[i])
              && (local[i] != '.' && local[i] != '_' ==> r[i] == local[i] || r[i] == UpperChar(local[i]))
    ensures var local := BeforeFirst(email, "@");
            forall i :: 0 <= i < |r| ==>
              var c := if local[i] == '.' || local[i] == '_' then ' ' else local[i];
              r[i] == (if WordInitial(r, i) then UpperChar(c) else c)
  {
    var local := BeforeFirst(email, "@");
    assert forall i :: 0 <= i < |local| ==> local[i] != '@' by {
      forall i | 0 <= i < |local| ensures local[i] != '@' {
        assert !OccursAt(local, "@", i);
        assert local[i..i + 1] == [local[i]];
      }
    }
    CapitalizeWords(DotsToSpaces(local))
  }
}
