/**
 * The signed-in user's display data: the role label and the display name
 * derived from the e-mail address.
 */
module Users {
  import opened Text

  /** `this.userInfo`. */
  datatype UserInfo = UserInfo(name: string, role: string, email: string)

  /** The user shown before anyone signs in, and again after signing out. */
  const DefaultUser := UserInfo("Dr. Smith", "Attending Physician", "")

  /** The label each role of the login form is shown with. */
  const RoleLabels: map<string, string> := map[
    "physician" := "Attending Physician",
    "resident" := "Resident",
    "analyst" := "Data Analyst",
    "coordinator" := "Research Coordinator"]

  /** `formatRole`: a known role's label, any other role as it is. */
  function FormatRole(role: string): (r: string)
    ensures role in RoleLabels ==> r == RoleLabels[role]
    ensures role !in RoleLabels ==> r == role
  {
    if role in RoleLabels then RoleLabels[role] else role
  }

  /** Formatting a role twice gives the same text as once: no label is itself a role key. */
  lemma FormatRoleIdempotent(role: string)
    ensures FormatRole(FormatRole(role)) == FormatRole(role)
  {
    assert forall v :: v in RoleLabels.Values ==> v !in RoleLabels;
  }

  /**
   * Two roles are shown with the same text only when they are equal, or one
   * is unknown and spells the other's label: the four roles of the login form
   * are shown with four different labels.
   */
  lemma FormatRoleCollision(a: string, b: string)
    ensures FormatRole(a) == FormatRole(b) <==>
              a == b || (a in RoleLabels && b == RoleLabels[a]) || (b in RoleLabels && a == RoleLabels[b])
  {
    assert forall v :: v in RoleLabels.Values ==> v !in RoleLabels;
    assert forall x, y :: x in RoleLabels && y in RoleLabels && x != y ==> RoleLabels[x] != RoleLabels[y];
  }

  /** The characters the local part of an address is split into words on: `/[._-]/`. */
  const WordSeparators: set<char> := {'.', '_', '-'}

  /** `word.charAt(0).toUpperCase() + word.slice(1).toLowerCase()`. */
  function Capitalize(word: string): (r: string)
    ensures |r| == |word|
  {
    if word == [] then [] else [UpperChar(word[0])] + ToLower(word[1..])
  }

  function CapitalizeAll(words: seq<string>): (r: seq<string>)
    ensures |r| == |words|
  {
    if words == [] then [] else [Capitalize(words[0])] + CapitalizeAll(words[1..])
  }

  /** The part of an address before its first '@': `email.split('@')[0]`. */
  function LocalPart(email: string): string {
    SplitOn(email, {'@'})[0]
  }

  /** The display name built from a local part: its words capitalised and joined by spaces. */
  function DisplayName(local: string): string {
    JoinWith(CapitalizeAll(SplitOn(local, WordSeparators)), ' ')
  }

  /** `extractNameFromEmail`. */
  function ExtractNameFromEmail(email: string): string {
    "Dr. " + DisplayName(LocalPart(email))
  }

  /**
   * What the display name shows at position `k` of the local part: a space
   * for a separator, an upper-cased letter at the start of a word, and a
   * lower-cased letter elsewhere.
   */
  function NameChar(local: string, k: nat): char
    requires k < |local|
  {
    if local[k] in WordSeparators then ' '
    else if k == 0 || local[k - 1] in WordSeparators then UpperChar(local[k])
    else LowerChar(local[k])
  }

  /** A word free of separators shows as NameChar says. */
  lemma CapitalizeWord(local: string, i: nat)
    requires i <= |local|
    requires forall j :: 0 <= j < i ==> local[j] !in WordSeparators
    ensures forall k :: 0 <= k < i ==> Capitalize(local[..i])[k] == NameChar(local, k)
  {
    var word := local[..i];
    forall k | 0 <= k < i ensures Capitalize(word)[k] == NameChar(local, k) {
      if k > 0 {
        assert Capitalize(word)[k] == ToLower(word[1..])[k - 1];
        assert local[k - 1] !in WordSeparators;
      }
    }
  }

  /** A local part without separators is one capitalised word. */
  lemma DisplayNameOneWord(local: string)
    requires FirstSep(local, WordSeparators) == |local|
    ensures DisplayName(local) == Capitalize(local)
  {
    assert SplitOn(local, WordSeparators) == [local];
    assert CapitalizeAll([local]) == [Capitalize(local)];
  }

  /** Capitalising a list word by word, one word at the front. */
  lemma CapitalizeAllCons(w: string, ws: seq<string>)
    ensures CapitalizeAll([w] + ws) == [Capitalize(w)] + CapitalizeAll(ws)
  {
    assert ([w] + ws)[1..] == ws;
  }

  /** Otherwise it is the first word capitalised, a space, and the display name of the rest. */
  lemma DisplayNameNextWord(local: string, i: nat)
    requires i == FirstSep(local, WordSeparators) && i < |local|
    ensures DisplayName(local) == Capitalize(local[..i]) + [' '] + DisplayName(local[i + 1..])
  {
    var word, rest := local[..i], SplitOn(local[i + 1..], WordSeparators);
    var caps := CapitalizeAll(rest);
    calc {
      DisplayName(local);
      JoinWith(CapitalizeAll(SplitOn(local, WordSeparators)), ' ');
      { assert SplitOn(local, WordSeparators) == [word] + rest; }
      JoinWith(CapitalizeAll([word] + rest), ' ');
      { CapitalizeAllCons(word, rest); }
      JoinWith([Capitalize(word)] + caps, ' ');
      { JoinWithCons(Capitalize(word), caps, ' '); }
      Capitalize(word) + [' '] + JoinWith(caps, ' ');
      Capitalize(local[..i]) + [' '] + DisplayName(local[i + 1..]);
    }
  }

  lemma {:induction false} DisplayNamePointwise(local: string)
    ensures |DisplayName(local)| == |local|
    ensures forall k :: 0 <= k < |local| ==> DisplayName(local)[k] == NameChar(local, k)
    decreases |local|
  {
    var i := FirstSep(local, WordSeparators);
    CapitalizeWord(local, i);
    if i == |local| {
      DisplayNameOneWord(local);
    } else {
      DisplayNameNextWord(local, i);
      var rest := local[i + 1..];
      var d := DisplayName(local);
      DisplayNamePointwise(rest);
      forall k | 0 <= k < |local| ensures d[k] == NameChar(local, k) {
        if k > i {
          assert d[k] == DisplayName(rest)[k - i - 1];
          assert rest[k - i - 1] == local[k];
          if k - i - 1 > 0 {
            assert rest[k - i - 2] == local[k - 1];
          }
        }
      }
    }
  }

  /**
   * The name shown after sign-in is "Dr. " followed by the part of the
   * address before its first '@', in which every '.', '_' and '-' has become a
   * space, the first letter of every word is upper case and every other
   * letter lower case.
   */
  lemma ExtractNameFromEmailSpec(email: string)
    ensures var r, local := ExtractNameFromEmail(email), email[..FirstSep(email, {'@'})];
      && |r| == 4 + |local|
      && r[..4] == "Dr. "
      && forall k :: 0 <= k < |local| ==> r[4 + k] == NameChar(local, k)
  {
    var i := FirstSep(email, {'@'});
    assert LocalPart(email) == email[..i];
    DisplayNamePointwise(email[..i]);
  }
}
