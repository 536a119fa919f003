/** The admin form for adding or editing a project
    (Frontend/src/components/ProjectFormModal.tsx): field state, the reset on
    opening, validation, and the comma-separated tag list. */
module ProjectFormModal {
  import opened Common

  // ---------------------------------------------------------------------------
  // Tag text: split on ",", trim each piece, drop the empty ones.
  // ---------------------------------------------------------------------------

  /** The characters `String.prototype.trim` strips: ECMAScript WhiteSpace
      (tab, vertical tab, form feed, space, no-break space, byte order mark and
      the space separators) and LineTerminator. */
  predicate IsWhitespace(c: char) {
    var n := c as int;
    n == 0x09 || n == 0x0A || n == 0x0B || n == 0x0C || n == 0x0D || n == 0x20
    || n == 0xA0 || n == 0x1680 || (0x2000 <= n <= 0x200A) || n == 0x2028 || n == 0x2029
    || n == 0x202F || n == 0x205F || n == 0x3000 || n == 0xFEFF
  }

  /** Every character of `s` from index `lo` up to (not including) `hi` is whitespace. */
  predicate WhitespaceBetween(s: string, lo: int, hi: int)
    requires 0 <= lo <= hi <= |s|
  {
    forall k :: lo <= k < hi ==> IsWhitespace(s[k])
  }

  /** Neither end of `s` is whitespace. */
  predicate IsTrimmed(s: string) {
    s == [] || (!IsWhitespace(s[0]) && !IsWhitespace(s[|s| - 1]))
  }

  /** How many times `c` occurs in `s`. */
  function Count(s: string, c: char): nat
  {
    if s == [] then 0 else (if s[0] == c then 1 else 0) + Count(s[1..], c)
  }

  /** `s.split(",")`: the pieces between commas, one more than there are commas. */
  function Split(s: string): (parts: seq<string>)
    ensures |parts| == Count(s, ',') + 1
    ensures forall i :: 0 <= i < |parts| ==> ',' !in parts[i]
  {
    if s == [] then [""]
    else
      assert s == [s[0]] + s[1..];
      var rest := Split(s[1..]);
      if s[0] == ',' then [""] + rest
      else [[s[0]] + rest[0]] + rest[1..]
  }

  /** `parts.join(sep)`; an empty list joins to "". */
  function Join(parts: seq<string>, sep: string): string
  {
    if |parts| == 0 then ""
    else if |parts| == 1 then parts[0]
    else parts[0] + sep + Join(parts[1..], sep)
  }

  /** Putting a character in front of the first piece puts it in front of the joined text. */
  lemma JoinConsChar(c: char, parts: seq<string>, sep: string)
    requires |parts| >= 1
    ensures Join([[c] + parts[0]] + parts[1..], sep) == [c] + Join(parts, sep)
  {
    var q := [[c] + parts[0]] + parts[1..];
    assert q[0] == [c] + parts[0] && q[1..] == parts[1..];
  }

  /** Splitting on "," and joining back with "," gives the text back. */
  lemma {:induction false} JoinSplit(s: string)
    ensures Join(Split(s), ",") == s
  {
    if s != [] {
      JoinSplit(s[1..]);
      var rest := Split(s[1..]);
      if s[0] == ',' {
        var parts := [""] + rest;
        assert Split(s) == parts;
        assert parts[1..] == rest;
        assert Join(parts, ",") == "," + Join(rest, ",");
      } else {
        JoinConsChar(s[0], rest, ",");
      }
      assert s == [s[0]] + s[1..];
    }
  }

  /** The first index at or after `i` whose character is not whitespace. */
  function SkipWhitespace(s: string, i: nat): (n: nat)
    requires i <= |s|
    ensures i <= n <= |s|
    ensures WhitespaceBetween(s, i, n)
    ensures n == |s| || !IsWhitespace(s[n])
    decreases |s| - i
  {
    if i < |s| && IsWhitespace(s[i]) then SkipWhitespace(s, i + 1) else i
  }

  /** Walking back from `j`, but not past `lo`, the end of the last character
      that is not whitespace. */
  function BackOverWhitespace(s: string, lo: nat, j: nat): (n: nat)
    requires lo <= j <= |s|
    ensures lo <= n <= j
    ensures WhitespaceBetween(s, n, j)
    ensures n == lo || !IsWhitespace(s[n - 1])
    decreases j
  {
    if lo < j && IsWhitespace(s[j - 1]) then BackOverWhitespace(s, lo, j - 1) else j
  }

  /** `s.trim()`: neither end of the result is whitespace. */
  function Trim(s: string): (r: string)
    ensures IsTrimmed(r)
    ensures |r| <= |s|
  {
    var lo := SkipWhitespace(s, 0);
    s[lo..BackOverWhitespace(s, lo, |s|)]
  }

  /** Trim removes whitespace from the two ends and nothing else: the result
      is a contiguous piece of `s` with only whitespace before and after it. */
  lemma TrimRemovesOnlyWhitespace(s: string)
    ensures exists lo, hi :: 0 <= lo <= hi <= |s| && Trim(s) == s[lo..hi]
                             && WhitespaceBetween(s, 0, lo) && WhitespaceBetween(s, hi, |s|)
  {
    var lo := SkipWhitespace(s, 0);
    var hi := BackOverWhitespace(s, lo, |s|);
    assert Trim(s) == s[lo..hi];
  }

  /** Trimming only removes characters. */
  lemma TrimInfix(s: string, c: char)
    requires c !in s
    ensures c !in Trim(s)
  {
    var lo := SkipWhitespace(s, 0);
    var r := Trim(s);
    forall j | 0 <= j < |r|
      ensures r[j] != c
    {
      assert r[j] == s[lo + j];
    }
  }

  /** Trimming text that is already trimmed changes nothing. */
  lemma TrimTrimmed(s: string)
    requires IsTrimmed(s)
    ensures Trim(s) == s
  {
    if s != [] {
      assert SkipWhitespace(s, 0) == 0;
      assert BackOverWhitespace(s, 0, |s|) == |s|;
      assert s[0..|s|] == s;
    }
  }

  /** The blank that ", " leaves in front of a tag is trimmed away. */
  lemma TrimSpacedTag(t: string)
    requires t != "" && IsTrimmed(t)
    ensures Trim(" " + t) == t
  {
    var s := " " + t;
    assert SkipWhitespace(s, 1) == 1;
    assert SkipWhitespace(s, 0) == 1;
    assert BackOverWhitespace(s, 1, |s|) == |s|;
    assert s[1..|s|] == t;
  }

  /** `.map(tag => tag.trim())` */
  function TrimAll(parts: seq<string>): (r: seq<string>)
    ensures |r| == |parts|
    ensures forall i :: 0 <= i < |r| ==> r[i] == Trim(parts[i])
  {
    if parts == [] then [] else [Trim(parts[0])] + TrimAll(parts[1..])
  }

  /** `.filter(Boolean)`: keeps the non-empty strings, in order. */
  function DropEmpty(parts: seq<string>): (r: seq<string>)
    ensures |r| <= |parts|
    ensures forall t :: t in r <==> t in parts && t != ""
    ensures IsSubsequence(r, parts)
    ensures multiset(r) == multiset(parts)["" := 0]
  {
    if parts == [] then []
    else
      assert parts == [parts[0]] + parts[1..];
      if parts[0] == "" then
        var r := DropEmpty(parts[1..]);
        assert r == [] || r[0] in r;
        r
      else [parts[0]] + DropEmpty(parts[1..])
  }

  /** The tag array handleSubmit builds from the tag text. */
  function ParseTags(text: string): seq<string>
  {
    DropEmpty(TrimAll(Split(text)))
  }

  /** A tag as the form itself would produce it: non-empty, trimmed, comma-free. */
  predicate CleanTag(t: string) {
    t != "" && IsTrimmed(t) && ',' !in t
  }

  /** Every submitted tag is non-empty, has no whitespace at either end and
      contains no comma. */
  lemma ParseTagsClean(text: string)
    ensures forall t :: t in ParseTags(text) ==> CleanTag(t)
  {
    var parts := Split(text);
    var trimmed := TrimAll(parts);
    TrimmedPiecesClean(parts);
    var tags := DropEmpty(trimmed);
    assert tags == ParseTags(text);
    forall t | t in tags
      ensures CleanTag(t)
    {
      assert t in trimmed && t != "";
      var j :| 0 <= j < |trimmed| && trimmed[j] == t;
    }
  }

  /** Trimming comma-free pieces gives trimmed, comma-free pieces. */
  lemma TrimmedPiecesClean(parts: seq<string>)
    requires forall i :: 0 <= i < |parts| ==> ',' !in parts[i]
    ensures forall i :: 0 <= i < |parts| ==> IsTrimmed(TrimAll(parts)[i]) && ',' !in TrimAll(parts)[i]
  {
    forall i | 0 <= i < |parts|
      ensures ',' !in TrimAll(parts)[i]
    {
      TrimInfix(parts[i], ',');
    }
  }

  /** The tags are exactly the non-blank comma-separated pieces, trimmed, in
      their left-to-right order, and there are at most commas + 1 of them. */
  lemma ParseTagsOrder(text: string)
    ensures IsSubsequence(ParseTags(text), TrimAll(Split(text)))
    ensures forall p :: p in Split(text) && Trim(p) != "" ==> Trim(p) in ParseTags(text)
    ensures |ParseTags(text)| <= Count(text, ',') + 1
    ensures multiset(ParseTags(text)) == multiset(TrimAll(Split(text)))["" := 0]
  {
    var parts := Split(text);
    var trimmed := TrimAll(parts);
    forall p | p in parts && Trim(p) != ""
      ensures Trim(p) in trimmed
    {
      var i :| 0 <= i < |parts| && parts[i] == p;
      assert trimmed[i] == Trim(p);
    }
  }

  // ---------------------------------------------------------------------------
  // Round trip: the reset effect writes tags.join(", "), submit parses it back.
  // ---------------------------------------------------------------------------

  lemma {:induction false} SplitCommaFree(a: string)
    requires ',' !in a
    ensures Split(a) == [a]
  {
    if a != [] {
      SplitCommaFree(a[1..]);
      assert a[0] in a;
      assert a == [a[0]] + a[1..];
    }
  }

  lemma {:induction false} SplitAfterComma(a: string, rest: string)
    requires ',' !in a
    ensures Split(a + "," + rest) == [a] + Split(rest)
  {
    if a == [] {
      assert ("" + "," + rest)[1..] == rest;
    } else {
      var s := a + "," + rest;
      assert s[0] == a[0] && a[0] in a;
      assert s[1..] == a[1..] + "," + rest;
      SplitAfterComma(a[1..], rest);
      assert a == [a[0]] + a[1..];
    }
  }

  /** Each piece with the blank that ", " leaves in front of it. */
  function Spaced(ts: seq<string>): (r: seq<string>)
    ensures |r| == |ts|
    ensures forall i :: 0 <= i < |ts| ==> r[i] == " " + ts[i]
  {
    if ts == [] then [] else [" " + ts[0]] + Spaced(ts[1..])
  }

  lemma {:induction false} SplitJoined(tags: seq<string>)
    requires |tags| >= 1
    requires forall i :: 0 <= i < |tags| ==> ',' !in tags[i]
    ensures Split(Join(tags, ", ")) == [tags[0]] + Spaced(tags[1..])
  {
    if |tags| == 1 {
      SplitCommaFree(tags[0]);
    } else {
      var x := Join(tags[1..], ", ");
      SplitJoined(tags[1..]);
      assert Join(tags, ", ") == tags[0] + "," + (" " + x);
      SplitAfterComma(tags[0], " " + x);
      assert (" " + x)[1..] == x;
      assert tags[1..][1..] == tags[2..];
    }
  }

  /** Reading a list back from the text the reset effect writes gives the
      same list, provided every tag is clean. */
  lemma ParseJoinRoundTrip(tags: seq<string>)
    requires forall i :: 0 <= i < |tags| ==> CleanTag(tags[i])
    ensures ParseTags(Join(tags, ", ")) == tags
  {
    if tags != [] {
      SplitJoined(tags);
      TrimPieces(tags);
      DropEmptyKeepsNonEmpty(tags);
    }
  }

  lemma TrimPieces(tags: seq<string>)
    requires |tags| >= 1
    requires forall i :: 0 <= i < |tags| ==> CleanTag(tags[i])
    ensures TrimAll([tags[0]] + Spaced(tags[1..])) == tags
  {
    var pieces := [tags[0]] + Spaced(tags[1..]);
    forall i | 0 <= i < |tags|
      ensures Trim(pieces[i]) == tags[i]
    {
      if i > 0 {
        TrimSpacedTag(tags[i]);
      } else {
        TrimTrimmed(tags[i]);
      }
    }
  }

  lemma {:induction false} DropEmptyKeepsNonEmpty(ts: seq<string>)
    requires forall i :: 0 <= i < |ts| ==> ts[i] != ""
    ensures DropEmpty(ts) == ts
  {
    if ts != [] {
      DropEmptyKeepsNonEmpty(ts[1..]);
    }
  }

  // ---------------------------------------------------------------------------
  // The form.
  // ---------------------------------------------------------------------------

  /** A project as the form receives it in `initialData` and hands it to `onSubmit`. */
  datatype Project = Project(title: string, description: string, tags: seq<string>, github: string)

  const RequiredMessage: string := "All fields are required."

  /** handleSubmit's decision on the raw field texts: any empty field rejects
      the form with the required-fields message; otherwise title, description
      and GitHub URL pass through unchanged and the tag text is parsed. */
  function Validate(title: string, description: string, tags: string, github: string): (r: Result<Project, string>)
    ensures r.Err? <==> title == "" || description == "" || tags == "" || github == ""
    ensures r.Err? ==> r.error == RequiredMessage
    ensures r.Ok? ==> r.value.title == title && r.value.description == description
                      && r.value.github == github
    ensures r.Ok? ==> r.value.tags == ParseTags(tags)
  {
    if title == "" || description == "" || tags == "" || github == "" then Err(RequiredMessage)
    else Ok(Project(title, description, ParseTags(tags), github))
  }

  /** The check looks at the raw tag text, so a text made only of commas and
      blanks passes and submits an empty tag list. */
  lemma BlankTagsPassValidation()
    ensures Validate("t", "d", " , ", "g") == Ok(Project("t", "d", [], "g"))
  {
    assert " , " == " " + "," + " ";
    SplitAfterComma(" ", " ");
    SplitCommaFree(" ");
    assert Trim(" ") == "";
  }

  class ProjectForm {
    var title: string
    var description: string
    var tags: string
    var github: string
    var error: string

    /** The field values the reset effect (and the initial state) takes from `initialData`. */
    static function InitialTitle(initialData: Option<Project>): string {
      if initialData.Some? then initialData.value.title else ""
    }
    static function InitialDescription(initialData: Option<Project>): string {
      if initialData.Some? then initialData.value.description else ""
    }
    static function InitialTags(initialData: Option<Project>): string {
      if initialData.Some? then Join(initialData.value.tags, ", ") else ""
    }
    static function InitialGithub(initialData: Option<Project>): string {
      if initialData.Some? then initialData.value.github else ""
    }

    /** The state right after the reset effect for `initialData`. */
    predicate ShowsInitial(initialData: Option<Project>)
      reads this
    {
      && title == InitialTitle(initialData)
      && description == InitialDescription(initialData)
      && tags == InitialTags(initialData)
      && github == InitialGithub(initialData)
      && error == ""
    }

    constructor (initialData: Option<Project>)
      ensures ShowsInitial(initialData)
    {
      title := InitialTitle(initialData);
      description := InitialDescription(initialData);
      tags := InitialTags(initialData);
      github := InitialGithub(initialData);
      error := "";
    }

    /** The effect run when `open` or `initialData` changes: when open, every
        field is reloaded from `initialData` (or cleared) and the error is
        cleared; when closed nothing happens. */
    method Reset(open: bool, initialData: Option<Project>)
      modifies this
      ensures open ==> ShowsInitial(initialData)
      ensures !open ==> unchanged(this)
    {
      if open {
        title := InitialTitle(initialData);
        description := InitialDescription(initialData);
        tags := InitialTags(initialData);
        github := InitialGithub(initialData);
        error := "";
      }
    }

    /** handleSubmit: returns the value passed to `onSubmit`, or None when the
        form is rejected, in which case only the error message changes. */
    method HandleSubmit() returns (submitted: Option<Project>)
      modifies this`error
      ensures var v := Validate(title, description, tags, github);
              && (submitted.Some? <==> v.Ok?)
              && (v.Ok? ==> submitted.value == v.value && error == old(error))
              && (v.Err? ==> error == v.error)
    {
      if title == "" || description == "" || tags == "" || github == "" {
        error := RequiredMessage;
        return None;
      }
      var tagsArray := ParseTags(tags);
      submitted := Some(Project(title, description, tagsArray, github));
    }
  }

  /** Opening the form on an existing project and submitting it unchanged
      sends back the same project when its fields are non-empty and its tags
      are clean. */
  lemma ReopenAndSubmit(p: Project)
    requires p.title != "" && p.description != "" && p.github != "" && p.tags != []
    requires forall i :: 0 <= i < |p.tags| ==> CleanTag(p.tags[i])
    ensures Validate(ProjectForm.InitialTitle(Some(p)), ProjectForm.InitialDescription(Some(p)),
                     ProjectForm.InitialTags(Some(p)), ProjectForm.InitialGithub(Some(p))) == Ok(p)
  {
    ParseJoinRoundTrip(p.tags);
    assert p.tags[0] in p.tags;
  }
}
