/**
 * The submit handler of the "Create a New Community" dialog
 * (src/components/community/CreateCommunityDialog.tsx): the name checks,
 * the default description, and the fallback that appends the community to
 * the list kept in the browser's local storage when the API call did not
 * succeed.
 *
 * The stored list is a sequence of records (its JSON text is not modelled)
 * and the outcome of the API call is a boolean input.
 */
module CommunityDialog {
  import opened Wrappers

  // ---------------------------------------------------------------------
  // String.prototype.trim and toLowerCase
  // ---------------------------------------------------------------------

  /** The characters String.prototype.trim removes: white space and line terminators. */
  predicate IsJsWhitespace(c: char)
  {
    c == '\t' || c == '\n' || c == '\U{000B}' || c == '\U{000C}' || c == '\r' || c == ' '
    || c == '\U{00A0}' || c == '\U{1680}' || ('\U{2000}' <= c <= '\U{200A}') || c == '\U{2028}' || c == '\U{2029}'
    || c == '\U{202F}' || c == '\U{205F}' || c == '\U{3000}' || c == '\U{FEFF}'
  }

  predicate AllWhitespace(s: string)
  {
    forall k :: 0 <= k < |s| ==> IsJsWhitespace(s[k])
  }

  /** The number of white-space characters `s` begins with. */
  function LeadingSpace(s: string): (n: nat)
    ensures n <= |s|
    ensures forall k :: 0 <= k < n ==> IsJsWhitespace(s[k])
    ensures n < |s| ==> !IsJsWhitespace(s[n])
  {
    if s != [] && IsJsWhitespace(s[0]) then 1 + LeadingSpace(s[1..]) else 0
  }

  /** The number of white-space characters `s` ends with. */
  function TrailingSpace(s: string): (n: nat)
    ensures n <= |s|
    ensures forall k :: |s| - n <= k < |s| ==> IsJsWhitespace(s[k])
    ensures n < |s| ==> !IsJsWhitespace(s[|s| - n - 1])
  {
    if s != [] && IsJsWhitespace(s[|s| - 1]) then 1 + TrailingSpace(s[..|s| - 1]) else 0
  }

  /** The string without its leading white space: a suffix of `s`, whose cut-off part is all white space. */
  function TrimStart(s: string): (r: string)
    ensures |r| <= |s| && r == s[|s| - |r|..]
    ensures AllWhitespace(s[..|s| - |r|])
    ensures r == [] || !IsJsWhitespace(r[0])
  {
    s[LeadingSpace(s)..]
  }

  /** The string without its trailing white space: a prefix of `s`, whose cut-off part is all white space. */
  function TrimEnd(s: string): (r: string)
    ensures |r| <= |s| && r == s[..|r|]
    ensures AllWhitespace(s[|r|..])
    ensures r == [] || !IsJsWhitespace(r[|r| - 1])
  {
    s[..|s| - TrailingSpace(s)]
  }

  /**
   * String.prototype.trim: the slice of `s` left once the white space at
   * both ends is cut off. It is empty exactly when `s` is all white space;
   * otherwise it begins and ends with a character that is not.
   */
  function Trim(s: string): (r: string)
    ensures exists k :: 0 <= k <= |s| - |r| && r == s[k..k + |r|] && AllWhitespace(s[..k]) && AllWhitespace(s[k + |r|..])
    ensures r == [] <==> AllWhitespace(s)
    ensures r == [] || (!IsJsWhitespace(r[0]) && !IsJsWhitespace(r[|r| - 1]))
  {
    TrimBlank(s);
    TrimFirst(s);
    TrimSlice(s);
    TrimEnd(TrimStart(s))
  }

  /** Both trims cut a white-space prefix and a white-space suffix off `s`. */
  lemma TrimSlice(s: string)
    ensures var r := TrimEnd(TrimStart(s)); var k := |s| - |TrimStart(s)|;
            0 <= k <= |s| - |r| && r == s[k..k + |r|] && AllWhitespace(s[..k]) && AllWhitespace(s[k + |r|..])
  {
    var front := TrimStart(s);
    var r := TrimEnd(front);
    var k := |s| - |front|;
    assert s[k + |r|..] == front[|r|..];
  }

  /** Both trims leave nothing exactly when the string is all white space. */
  lemma TrimBlank(s: string)
    ensures TrimEnd(TrimStart(s)) == [] <==> AllWhitespace(s)
  {
    var front := TrimStart(s);
    var cut := |s| - |front|;
    if TrimEnd(front) == [] {
      assert front[0..] == front;
      assert s[..cut] == s;
    }
    if front != [] {
      assert s[cut] == front[0];
    }
  }

  /** What both trims leave begins with a character that is not white space. */
  lemma TrimFirst(s: string)
    ensures var r := TrimEnd(TrimStart(s)); r == [] || !IsJsWhitespace(r[0])
  {
    var front := TrimStart(s);
    var r := TrimEnd(front);
    if r != [] {
      assert r[0] == front[0];
    }
  }

  /** Trimming a string that neither begins nor ends with white space leaves it as it is. */
  lemma TrimOfTrimmed(s: string)
    requires s == [] || (!IsJsWhitespace(s[0]) && !IsJsWhitespace(s[|s| - 1]))
    ensures Trim(s) == s
  {
  }

  /** The KELVIN SIGN, which toLowerCase maps to the ASCII letter 'k'. */
  const KelvinSign: char := '\U{212A}'

  /** toLowerCase on one character, for the characters whose lower case is ASCII. */
  function LowerChar(c: char): char
  {
    if 'A' <= c <= 'Z' then (c - 'A' + 'a') as char else if c == KelvinSign then 'k' else c
  }

  /**
   * toLowerCase, for the characters whose lower case is ASCII: the ASCII
   * upper-case letters and the KELVIN SIGN. Every other character is kept.
   */
  function LowerCase(s: string): (r: string)
    ensures |r| == |s|
    ensures forall k :: 0 <= k < |s| && 'A' <= s[k] <= 'Z' ==> r[k] == (s[k] - 'A' + 'a') as char
    ensures forall k :: 0 <= k < |s| && s[k] == KelvinSign ==> r[k] == 'k'
    ensures forall k :: 0 <= k < |s| && !('A' <= s[k] <= 'Z') && s[k] != KelvinSign ==> r[k] == s[k]
  {
    if s == [] then [] else [LowerChar(s[0])] + LowerCase(s[1..])
  }

  // ---------------------------------------------------------------------
  // The name and the description
  // ---------------------------------------------------------------------

  /** The character class [a-z0-9-]. */
  predicate IsNameChar(c: char)
  {
    ('a' <= c <= 'z') || ('0' <= c <= '9') || c == '-'
  }

  /** The pattern /^[a-z0-9-]+$/. */
  predicate MatchesNamePattern(s: string)
  {
    |s| > 0 && forall k :: 0 <= k < |s| ==> IsNameChar(s[k])
  }

  const BlankNameMessage := "Please enter a community name."
  const BadNameMessage := "Community name can only contain lowercase letters, numbers, and hyphens."
  const DuplicateNameMessage := "A community with this name already exists."

  /**
   * The two checks on the name, in order: blank after trimming, then the
   * pattern. A name is accepted exactly when it matches the pattern; the blank
   * check only chooses the message. The accepted name is used untrimmed.
   */
  function ValidateName(name: string): (r: Result<string, string>)
    ensures r.Ok? <==> MatchesNamePattern(name)
    ensures r.Ok? ==> r.value == name
    ensures AllWhitespace(name) ==> r == Err(BlankNameMessage)
    ensures !AllWhitespace(name) && !MatchesNamePattern(name) ==> r == Err(BadNameMessage)
  {
    if Trim(name) == [] then Err(BlankNameMessage)
    else if !MatchesNamePattern(name) then Err(BadNameMessage)
    else
      assert !IsJsWhitespace(name[0]);
      Ok(name)
  }

  /**
   * The input keeps the name lowercased as typed, so ASCII letters of either
   * case, the KELVIN SIGN, digits and '-' pass.
   */
  lemma TypedNameAccepted(typed: string)
    requires |typed| > 0
    requires forall k :: 0 <= k < |typed| ==> IsNameChar(typed[k]) || ('A' <= typed[k] <= 'Z') || typed[k] == KelvinSign
    ensures ValidateName(LowerCase(typed)) == Ok(LowerCase(typed))
  {
    var lowered := LowerCase(typed);
    forall k | 0 <= k < |lowered| ensures IsNameChar(lowered[k]) {
      if 'A' <= typed[k] <= 'Z' {
        LoweredLetterIsNameChar(typed[k]);
      }
    }
    assert MatchesNamePattern(lowered);
  }

  lemma LoweredLetterIsNameChar(c: char)
    requires 'A' <= c <= 'Z'
    ensures IsNameChar((c - 'A' + 'a') as char)
  {
  }

  /** The description sent and stored: the trimmed text, or "Discussions about <name>" when that is empty. */
  function DescriptionOrDefault(name: string, description: string): (r: string)
    ensures Trim(description) != [] ==> r == Trim(description)
    ensures AllWhitespace(description) ==> r == "Discussions about " + name
  {
    var trimmed := Trim(description);
    if trimmed == [] then "Discussions about " + name else trimmed
  }

  /** For an accepted name, the description is never blank and has nothing left to trim. */
  lemma DescriptionNeverBlank(name: string, description: string)
    requires MatchesNamePattern(name)
    ensures var r := DescriptionOrDefault(name, description); r != [] && Trim(r) == r
  {
    var r := DescriptionOrDefault(name, description);
    if Trim(description) == [] {
      DefaultDescriptionTrimmed(name);
    }
    TrimOfTrimmed(r);
  }

  /** "Discussions about <name>" for an accepted name begins and ends with a character that is not white space. */
  lemma DefaultDescriptionTrimmed(name: string)
    requires MatchesNamePattern(name)
    ensures var d := "Discussions about " + name; !IsJsWhitespace(d[0]) && !IsJsWhitespace(d[|d| - 1])
  {
    var d := "Discussions about " + name;
    assert d[0] == 'D';
    assert d[|d| - 1] == name[|name| - 1];
  }

  // ---------------------------------------------------------------------
  // The local-storage fallback
  // ---------------------------------------------------------------------

  /** One entry of the stored list. */
  datatype StoredCommunity = StoredCommunity(name: string, description: string, createdAt: string)

  datatype Outcome =
    | Rejected(message: string)   // a toast with an error; nothing is stored
    | CreatedOnServer             // the API answered ok; the stored list is not touched
    | CreatedLocally              // the API failed; the community was appended to the stored list

  predicate HasName(entries: seq<StoredCommunity>, name: string)
  {
    exists i :: 0 <= i < |entries| && entries[i].name == name
  }

  /** What the fallback keeps true of the list: no name twice, every name accepted. */
  ghost predicate WellFormed(entries: seq<StoredCommunity>)
  {
    (forall i, j :: 0 <= i < j < |entries| ==> entries[i].name != entries[j].name)
    && (forall i :: 0 <= i < |entries| ==> MatchesNamePattern(entries[i].name))
  }

  /** The list stored under the key 'communities'. */
  class CommunityList {
    var entries: seq<StoredCommunity>

    /** No list stored yet reads as the empty list. */
    constructor ()
      ensures entries == []
    {
      entries := [];
    }

    /**
     * `communities.some(c => c.name === name)`.
     */
    method Contains(name: string) returns (found: bool)
      ensures found <==> HasName(entries, name)
    {
      found := false;
      var i := 0;
      while i < |entries| && !found
        invariant 0 <= i <= |entries|
        invariant found <==> exists k :: 0 <= k < i && entries[k].name == name
      {
        found := entries[i].name == name;
        i := i + 1;
      }
    }

    /**
     * handleSubmit: validate the name; when the API call did not succeed,
     * reject a name already in the list, and otherwise append the new
     * community at the end. `now` is the creation time as an ISO string.
     */
    method Submit(name: string, description: string, apiSucceeded: bool, now: string) returns (outcome: Outcome)
      modifies this
      ensures ValidateName(name).Err? ==> outcome == Rejected(ValidateName(name).error) && entries == old(entries)
      ensures ValidateName(name).Ok? && apiSucceeded ==> outcome == CreatedOnServer && entries == old(entries)
      ensures ValidateName(name).Ok? && !apiSucceeded && HasName(old(entries), name) ==>
                outcome == Rejected(DuplicateNameMessage) && entries == old(entries)
      ensures ValidateName(name).Ok? && !apiSucceeded && !HasName(old(entries), name) ==>
                outcome == CreatedLocally
                && entries == old(entries) + [StoredCommunity(name, DescriptionOrDefault(name, description), now)]
      ensures outcome == CreatedLocally ==> |entries| == |old(entries)| + 1 && entries[..|old(entries)|] == old(entries)
      ensures WellFormed(old(entries)) ==> WellFormed(entries)
    {
      var checked := ValidateName(name);
      if checked.Err? {
        return Rejected(checked.error);
      }
      if apiSucceeded {
        return CreatedOnServer;
      }
      var taken := Contains(name);
      if taken {
        return Rejected(DuplicateNameMessage);
      }
      var created := StoredCommunity(name, DescriptionOrDefault(name, description), now);
      AppendKeepsWellFormed(entries, created);
      entries := entries + [created];
      outcome := CreatedLocally;
    }
  }

  /** Appending an entry with an accepted name not yet in the list keeps the list well formed. */
  lemma AppendKeepsWellFormed(entries: seq<StoredCommunity>, e: StoredCommunity)
    ensures WellFormed(entries) && !HasName(entries, e.name) && MatchesNamePattern(e.name) ==> WellFormed(entries + [e])
  {
    if WellFormed(entries) && !HasName(entries, e.name) && MatchesNamePattern(e.name) {
      var longer := entries + [e];
      forall i, j | 0 <= i < j < |longer| ensures longer[i].name != longer[j].name {
        if j == |entries| {
          assert longer[i] == entries[i];
        }
      }
    }
  }
}
