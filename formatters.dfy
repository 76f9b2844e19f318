/**
 * The display helpers of the web client: amenity tags in camel case become
 * title-case labels, words are capitalized, and bus types get their display
 * names. Regular expressions are modelled by what they match: `[A-Z]`, the
 * first character `^.` (any character but a line terminator), and the
 * words `\w\S*` found left to right without overlap.
 */
module Formatters {
  import opened Wrappers
  import opened Text
  import Schema

  // ---------------------------------------------------------------------------
  // formatAmenities

  /** Every upper-case letter is preceded by a space: `replace(/([A-Z])/g, ' $1')`. */
  function InsertSpaces(t: string): (s: string)
    ensures |s| >= |t|
  {
    if t == [] then []
    else (if IsUpper(t[0]) then [' ', t[0]] else [t[0]]) + InsertSpaces(t[1..])
  }

  /** The first character in upper case, unless it is a line terminator: `replace(/^./, ...)`. */
  function CapFirst(s: string): (r: string)
    ensures |r| == |s|
    ensures |s| > 0 ==> r[1..] == s[1..]
  {
    if s == [] || IsLineTerminator(s[0]) then s else [ToUpper(s[0])] + s[1..]
  }

  /** The label of one amenity tag: `"wifiAccess"` reads `"Wifi Access"`. */
  function FormatTag(t: string): string
  {
    CapFirst(InsertSpaces(t))
  }

  /** `formatAmenities`: a missing or empty list reads "None selected"; otherwise the labels joined by ", ". */
  function FormatAmenities(amenities: Option<seq<string>>): string
  {
    if amenities.None? || |amenities.value| == 0 then "None selected"
    else Join(seq(|amenities.value|, i requires 0 <= i < |amenities.value| => FormatTag(amenities.value[i])), ", ")
  }

  /** Drops every space that stands right before an upper-case letter. */
  function Decamel(s: string): string
  {
    if s == [] then []
    else if s[0] == ' ' && |s| > 1 && IsUpper(s[1]) then Decamel(s[1..])
    else [s[0]] + Decamel(s[1..])
  }

  /** Reads a label back into its tag. */
  function UnformatTag(r: string): string
  {
    if r != [] && IsUpper(r[0]) then Decamel([ToLower(r[0])] + r[1..]) else Decamel(r)
  }

  function CountUpper(t: string): nat
  {
    if t == [] then 0 else (if IsUpper(t[0]) then 1 else 0) + CountUpper(t[1..])
  }

  /** The spaced text never starts with an upper-case letter, and contains a comma exactly when the tag does. */
  lemma {:induction false} InsertSpacesShape(t: string)
    ensures InsertSpaces(t) != [] ==> !IsUpper(InsertSpaces(t)[0])
    ensures |InsertSpaces(t)| == |t| + CountUpper(t)
    ensures ',' in InsertSpaces(t) <==> ',' in t
  {
    if t != [] {
      InsertSpacesShape(t[1..]);
      var head := if IsUpper(t[0]) then [' ', t[0]] else [t[0]];
      assert InsertSpaces(t) == head + InsertSpaces(t[1..]);
      assert t == [t[0]] + t[1..];
      assert ',' in t <==> t[0] == ',' || ',' in t[1..];
    }
  }

  /** Removing the inserted spaces gives back the tag. */
  lemma {:induction false} DecamelInsertSpaces(t: string)
    ensures Decamel(InsertSpaces(t)) == t
  {
    if t != [] {
      var rest := InsertSpaces(t[1..]);
      InsertSpacesShape(t[1..]);
      DecamelInsertSpaces(t[1..]);
      if IsUpper(t[0]) {
        var s := [' ', t[0]] + rest;
        assert s[1..] == [t[0]] + rest;
        assert Decamel(s) == Decamel([t[0]] + rest);
        assert ([t[0]] + rest)[1..] == rest;
      } else {
        var s := [t[0]] + rest;
        assert s[1..] == rest;
      }
      assert t == [t[0]] + t[1..];
    }
  }

  /** A label determines its tag: distinct tags always get distinct labels. */
  lemma FormatTagRoundTrip(t: string)
    ensures UnformatTag(FormatTag(t)) == t
  {
    var s := InsertSpaces(t);
    InsertSpacesShape(t);
    DecamelInsertSpaces(t);
    if s != [] && !IsLineTerminator(s[0]) {
      var r := [ToUpper(s[0])] + s[1..];
      assert r[1..] == s[1..];
      if IsLower(s[0]) {
        assert [ToLower(r[0])] + r[1..] == s;
      } else {
        assert r == s;
      }
    }
  }

  /** A label is one character longer per upper-case letter of its tag, and has a comma only where the tag has one. */
  lemma FormatTagShape(t: string)
    ensures |FormatTag(t)| == |t| + CountUpper(t)
    ensures ',' in FormatTag(t) <==> ',' in t
  {
    var s := InsertSpaces(t);
    InsertSpacesShape(t);
    if s != [] && !IsLineTerminator(s[0]) {
      assert s == [s[0]] + s[1..];
      assert ',' in s <==> s[0] == ',' || ',' in s[1..];
    }
  }

  /** A tag in camel case reads as separate, capitalized words; a leading capital gains a leading space. */
  lemma FormatTagExample()
    ensures FormatTag("wiFi") == "Wi Fi"
    ensures FormatTag("Tv") == " Tv"
  {
    assert InsertSpaces("i") == "i";
    assert InsertSpaces("Fi") == " Fi";
    assert InsertSpaces("iFi") == "i Fi";
    assert InsertSpaces("wiFi") == "wi Fi";
    assert InsertSpaces("v") == "v";
    assert InsertSpaces("Tv") == " Tv";
  }

  /** The pieces of `Join(parts, ", ")` split at commas: the first part, then each later one behind its space. */
  lemma {:induction false} SplitJoin(parts: seq<string>)
    requires |parts| >= 1
    requires forall i :: 0 <= i < |parts| ==> ',' !in parts[i]
    ensures |Split(Join(parts, ", "), ',')| == |parts|
    ensures Split(Join(parts, ", "), ',')[0] == parts[0]
    ensures forall i :: 1 <= i < |parts| ==> Split(Join(parts, ", "), ',')[i] == " " + parts[i]
  {
    if |parts| == 1 {
      SplitWithoutSeparator(parts[0], ',');
    } else {
      var rest := Join(parts[1..], ", ");
      assert Join(parts, ", ") == parts[0] + ", " + rest;
      SplitJoin(parts[1..]);
      SplitAfterComma(parts[0], rest);
      var later := Split(rest, ',');
      var pieces := [parts[0]] + ([" " + later[0]] + later[1..]);
      forall i | 1 <= i < |parts| ensures pieces[i] == " " + parts[i] {
        if i > 1 {
          assert pieces[i] == later[i - 1];
          assert later[i - 1] == " " + parts[1..][i - 1];
        }
      }
    }
  }

  /** The first piece, then the rest behind its space. */
  lemma SplitAfterComma(first: string, rest: string)
    requires ',' !in first
    ensures Split(first + ", " + rest, ',') == [first] + ([" " + Split(rest, ',')[0]] + Split(rest, ',')[1..])
  {
    assert first + ", " + rest == first + [','] + (" " + rest);
    SplitAtSeparator(first, " " + rest, ',');
    SplitPrefix(" ", rest, ',');
  }

  /** Reads a list of labels back into tags; "None selected" reads as no amenities. */
  function ReadAmenities(text: string): seq<string>
  {
    if text == "None selected" then []
    else
      var pieces := Split(text, ',');
      seq(|pieces|, i requires 0 <= i < |pieces| =>
        if i == 0 then UnformatTag(pieces[i]) else UnformatTag(if pieces[i] == [] then [] else pieces[i][1..]))
  }

  /**
   * The listed tags, if none contains a comma, can be read back from the
   * text in order; the one text that does not determine its list is a single
   * tag whose label is "None selected" itself.
   */
  lemma FormatAmenitiesRoundTrip(amenities: seq<string>)
    requires |amenities| >= 1
    requires forall i :: 0 <= i < |amenities| ==> ',' !in amenities[i]
    requires FormatAmenities(Some(amenities)) != "None selected"
    ensures ReadAmenities(FormatAmenities(Some(amenities))) == amenities
  {
    var labels := seq(|amenities|, i requires 0 <= i < |amenities| => FormatTag(amenities[i]));
    forall i | 0 <= i < |labels| ensures ',' !in labels[i] {
      FormatTagShape(amenities[i]);
    }
    SplitJoin(labels);
    var pieces := Split(Join(labels, ", "), ',');
    var back := ReadAmenities(Join(labels, ", "));
    assert |back| == |amenities|;
    forall i | 0 <= i < |amenities| ensures back[i] == amenities[i] {
      FormatTagRoundTrip(amenities[i]);
      if i > 0 {
        assert pieces[i][1..] == labels[i];
      }
    }
  }

  /** No list of amenities, or an empty one, reads "None selected". */
  lemma NothingSelected(amenities: Option<seq<string>>)
    requires amenities.None? || amenities.value == []
    ensures FormatAmenities(amenities) == "None selected"
    ensures ReadAmenities(FormatAmenities(amenities)) == []
  {
  }

  // ---------------------------------------------------------------------------
  // capitalize

  /** The length of the run of non-space characters at the start of `s`. */
  function NonSpaceRun(s: string): (n: nat)
    ensures n <= |s|
    ensures forall i :: 0 <= i < n ==> !IsSpace(s[i])
    ensures n < |s| ==> IsSpace(s[n])
  {
    if s == [] || IsSpace(s[0]) then 0 else 1 + NonSpaceRun(s[1..])
  }

  /**
   * `capitalize`: each word `\w\S*` (a word character and the non-space
   * characters after it) gets its first character in upper case and the
   * rest in lower case; everything between words is kept.
   */
  function Capitalize(s: string): (r: string)
    ensures |r| == |s|
    decreases |s|
  {
    if s == [] then []
    else if IsWordChar(s[0]) then
      var n := 1 + NonSpaceRun(s[1..]);
      [ToUpper(s[0])] + LowerAll(s[1..n]) + Capitalize(s[n..])
    else [s[0]] + Capitalize(s[1..])
  }

  /** Position `i` lies inside a word: the scan from the left has started one that reaches `i`. */
  predicate InWord(s: string, i: nat)
    requires i < |s|
  {
    !IsSpace(s[i]) && (IsWordChar(s[i]) || (i > 0 && InWord(s, i - 1)))
  }

  /** Position `i` starts a word: a word character not inside a word already begun. */
  predicate StartsWord(s: string, i: nat)
    requires i < |s|
  {
    IsWordChar(s[i]) && !(i > 0 && InWord(s, i - 1))
  }

  /** What `capitalize` makes of the character at position `i`. */
  function Capitalized(s: string, i: nat): char
    requires i < |s|
  {
    if StartsWord(s, i) then ToUpper(s[i]) else if InWord(s, i) then ToLower(s[i]) else s[i]
  }

  /** Scanning may restart at `n` when no word runs across it. */
  lemma {:induction false} ScanRestarts(s: string, n: nat, j: nat)
    requires n < |s| && j < |s| - n
    requires n == 0 || IsSpace(s[n]) || !InWord(s, n - 1)
    ensures InWord(s[n..], j) == InWord(s, n + j)
    ensures StartsWord(s[n..], j) == StartsWord(s, n + j)
    decreases j
  {
    if j > 0 {
      ScanRestarts(s, n, j - 1);
    }
  }

  /** A word that starts at 0 covers its whole run of non-space characters. */
  lemma {:induction false} WordCoversRun(s: string, n: nat, i: nat)
    requires s != [] && IsWordChar(s[0])
    requires n <= |s| && forall k :: 0 <= k < n ==> !IsSpace(s[k])
    requires i < n
    ensures InWord(s, i)
    ensures StartsWord(s, i) <==> i == 0
    decreases i
  {
    if i > 0 {
      WordCoversRun(s, n, i - 1);
    }
  }

  /** `capitalize` character by character. */
  lemma {:induction false} CapitalizeAt(s: string, i: nat)
    requires i < |s|
    ensures Capitalize(s)[i] == Capitalized(s, i)
    decreases |s|
  {
    if IsWordChar(s[0]) {
      CapitalizeWordAt(s, i);
    } else {
      assert !InWord(s, 0);
      if i > 0 {
        assert Capitalize(s)[i] == Capitalize(s[1..])[i - 1];
        CapitalizeAt(s[1..], i - 1);
        ScanRestarts(s, 1, i - 1);
        assert s[1..][i - 1] == s[i];
      }
    }
  }

  /** The case of `CapitalizeAt` where a word starts at 0. */
  lemma {:induction false} CapitalizeWordAt(s: string, i: nat)
    requires i < |s| && IsWordChar(s[0])
    ensures Capitalize(s)[i] == Capitalized(s, i)
    decreases |s|, 0
  {
    var n := 1 + NonSpaceRun(s[1..]);
    assert forall k :: 0 <= k < n ==> !IsSpace(s[k]) by {
      forall k | 0 <= k < n ensures !IsSpace(s[k]) {
        if k > 0 { assert s[k] == s[1..][k - 1]; }
      }
    }
    var word := [ToUpper(s[0])] + LowerAll(s[1..n]);
    assert Capitalize(s) == word + Capitalize(s[n..]);
    if i < n {
      WordCoversRun(s, n, i);
      assert Capitalize(s)[i] == word[i];
      if i > 0 { assert word[i] == LowerAll(s[1..n])[i - 1]; }
    } else {
      assert n < |s| && IsSpace(s[n]);
      assert Capitalize(s)[i] == Capitalize(s[n..])[i - n];
      CapitalizeAt(s[n..], i - n);
      ScanRestarts(s, n, i - n);
      assert s[n..][i - n] == s[i];
    }
  }

  /** Words are found the same way in two strings whose characters fall in the same classes. */
  lemma {:induction false} SameClassesSameWords(s: string, t: string, i: nat)
    requires |s| == |t| && i < |s|
    requires forall k :: 0 <= k < |s| ==> IsSpace(s[k]) == IsSpace(t[k]) && IsWordChar(s[k]) == IsWordChar(t[k])
    ensures InWord(s, i) == InWord(t, i) && StartsWord(s, i) == StartsWord(t, i)
    decreases i
  {
    if i > 0 {
      SameClassesSameWords(s, t, i - 1);
    }
  }

  /** Capitalizing twice is capitalizing once. */
  lemma CapitalizeIdempotent(s: string)
    ensures Capitalize(Capitalize(s)) == Capitalize(s)
  {
    var r := Capitalize(s);
    forall k | 0 <= k < |s|
      ensures IsSpace(r[k]) == IsSpace(s[k]) && IsWordChar(r[k]) == IsWordChar(s[k])
    {
      CapitalizeAt(s, k);
      CaseMappingKeepsClasses(s[k]);
    }
    forall i | 0 <= i < |s| ensures Capitalize(r)[i] == r[i] {
      CapitalizeAt(s, i);
      CapitalizeAt(r, i);
      SameClassesSameWords(s, r, i);
      CaseMappingKeepsClasses(s[i]);
    }
  }

  // ---------------------------------------------------------------------------
  // formatBusType

  /** `formatBusType`: the two known types have fixed names; any other text is capitalized. */
  function FormatBusType(busType: string): string
  {
    if busType == "standard" then "Standard Charter Bus"
    else if busType == "luxury" then "Luxury Charter Bus"
    else Capitalize(busType)
  }

  /** Every bus type the schema admits gets its fixed display name. */
  lemma BusTypeNames(b: Schema.BusType)
    ensures FormatBusType(Schema.BusTypeName(b)) == (if b == Schema.Standard then "Standard Charter Bus" else "Luxury Charter Bus")
  {
  }

  /** An unknown type keeps its length and its spacing, and formatting it again changes nothing. */
  lemma OtherBusTypes(busType: string)
    requires busType != "standard" && busType != "luxury"
    ensures |FormatBusType(busType)| == |busType|
    ensures forall i :: 0 <= i < |busType| ==> FormatBusType(busType)[i] == Capitalized(busType, i)
    ensures FormatBusType(busType) != "standard" && FormatBusType(busType) != "luxury"
            ==> FormatBusType(FormatBusType(busType)) == FormatBusType(busType)
  {
    forall i | 0 <= i < |busType| ensures FormatBusType(busType)[i] == Capitalized(busType, i) {
      CapitalizeAt(busType, i);
    }
    CapitalizeIdempotent(busType);
  }
}
