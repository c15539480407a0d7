/**
 * The commit-message hook (scripts/commit-msg.mjs): the header grammar of Conventional
 * Commits 1.0.0 (a type, an optional parenthesised scope, an optional `!`, a colon, one
 * whitespace character and a description), the house rules layered on top of it, and the
 * comment stripping done before validation.
 */
module CommitMsg {
  import opened Wrappers
  import opened Text

  /** The eleven commit types the hook accepts, compared case-sensitively. */
  const AllowedTypes: seq<string> :=
    ["feat", "fix", "docs", "style", "refactor", "perf", "test", "build", "ci", "chore", "revert"]

  const MinSubjectLength: nat := 3
  const MaxHeaderLength: nat := 100

  /** The messages the hook can report. Each stands for the fixed text IssueText gives
      it; errors and warnings are sequences of these. */
  datatype Issue =
    | EmptyMessage
    | FormatInvalid
    | FormatExpected
    | FormatExample
    | InvalidType(commitType: string)
    | AllowedTypesHint
    | SubjectTooShort
    | HeaderTooLong(length: nat)
    | TrailingPeriod
    | CapitalisedSubject

  /** The text the hook prints for each message. */
  function IssueText(i: Issue): string {
    match i
    case EmptyMessage => "Commit message cannot be empty."
    case FormatInvalid => "Commit message format is invalid."
    case FormatExpected => "Expected format: <type>(<scope>): <subject>"
    case FormatExample => "Example: feat(shell): add new sidebar component"
    case InvalidType(t) => "Invalid type: \"" + t + "\""
    case AllowedTypesHint => "Allowed types: " + JoinWith(AllowedTypes, ", ")
    case SubjectTooShort => "Subject must be at least 3 characters."
    case HeaderTooLong(n) => "Header is too long (" + NatToString(n) + "/100 characters)."
    case TrailingPeriod => "Subject should not end with a period."
    case CapitalisedSubject => "Subject should start with lowercase."
  }

  /** The printed texts of a list of messages, in order. */
  function IssueTexts(issues: seq<Issue>): (r: seq<string>)
    ensures |r| == |issues| && forall k :: 0 <= k < |r| ==> r[k] == IssueText(issues[k])
  {
    if issues == [] then [] else [IssueText(issues[0])] + IssueTexts(issues[1..])
  }

  const EmptyError: Issue := EmptyMessage
  const FormatErrors: seq<Issue> := [FormatInvalid, FormatExpected, FormatExample]
  const ShortSubjectError: Issue := SubjectTooShort
  const PeriodWarning: Issue := TrailingPeriod
  const LowercaseWarning: Issue := CapitalisedSubject

  function InvalidTypeErrors(commitType: string): seq<Issue> {
    [InvalidType(commitType), AllowedTypesHint]
  }

  function HeaderTooLongError(length: nat): Issue {
    HeaderTooLong(length)
  }

  // ---------------------------------------------------------------------------
  // The header pattern ^(\w+)(\([\w-]+\))?!?:\s(.+)$

  /** The class `[\w-]` a scope is made of. */
  predicate IsScopeChar(c: char) { IsWordChar(c) || c == '-' }

  predicate AllWord(s: string) { forall i :: 0 <= i < |s| ==> IsWordChar(s[i]) }
  predicate AllScope(s: string) { forall i :: 0 <= i < |s| ==> IsScopeChar(s[i]) }
  predicate NoLineTerminator(s: string) { forall i :: 0 <= i < |s| ==> !IsLineTerminator(s[i]) }

  /** The longest prefix of word characters (the greedy `\w+`). */
  function WordPrefix(s: string): (r: string)
    ensures |r| <= |s| && r == s[..|r|] && AllWord(r)
    ensures |r| == |s| || !IsWordChar(s[|r|])
  {
    if s != [] && IsWordChar(s[0]) then [s[0]] + WordPrefix(s[1..]) else []
  }

  /** The longest prefix of scope characters (the greedy `[\w-]+`). */
  function ScopePrefix(s: string): (r: string)
    ensures |r| <= |s| && r == s[..|r|] && AllScope(r)
    ensures |r| == |s| || !IsScopeChar(s[|r|])
  {
    if s != [] && IsScopeChar(s[0]) then [s[0]] + ScopePrefix(s[1..]) else []
  }

  lemma {:induction false} WordPrefixOfConcat(a: string, b: string)
    requires AllWord(a)
    requires b == [] || !IsWordChar(b[0])
    ensures WordPrefix(a + b) == a
  {
    if a == [] {
      assert a + b == b;
    } else {
      assert (a + b)[0] == a[0] && (a + b)[1..] == a[1..] + b;
      WordPrefixOfConcat(a[1..], b);
      assert [a[0]] + a[1..] == a;
    }
  }

  lemma {:induction false} ScopePrefixOfConcat(a: string, b: string)
    requires AllScope(a)
    requires b == [] || !IsScopeChar(b[0])
    ensures ScopePrefix(a + b) == a
  {
    if a == [] {
      assert a + b == b;
    } else {
      assert (a + b)[0] == a[0] && (a + b)[1..] == a[1..] + b;
      ScopePrefixOfConcat(a[1..], b);
      assert [a[0]] + a[1..] == a;
    }
  }

  /** The parts the pattern captures, plus the two characters it matches without
      capturing them: whether there was a `!` and the whitespace after the colon. */
  datatype HeaderMatch = HeaderMatch(
    commitType: string, scope: Option<string>, bang: bool, gap: char, subject: string)

  /** The text of the optional scope group, parentheses included. */
  function ScopeText(scope: Option<string>): string {
    match scope
    case None => ""
    case Some(sc) => "(" + sc + ")"
  }

  /** The header a match stands for. */
  function Assemble(m: HeaderMatch): string {
    m.commitType + (ScopeText(m.scope) + ((if m.bang then "!" else "") + (":" + ([m.gap] + m.subject))))
  }

  /** What each part of the pattern admits. */
  predicate WellFormed(m: HeaderMatch) {
    && m.commitType != [] && AllWord(m.commitType)
    && (m.scope.Some? ==> m.scope.value != [] && AllScope(m.scope.value))
    && IsSpace(m.gap)
    && m.subject != [] && NoLineTerminator(m.subject)
  }

  /** The optional `(scope)` group at the start of `s`, and what follows it. */
  function ScopePart(s: string): (r: Option<(Option<string>, string)>)
    ensures r.Some? ==> s == ScopeText(r.value.0) + r.value.1
    ensures r.Some? && r.value.0.Some? ==> r.value.0.value != [] && AllScope(r.value.0.value)
  {
    if s == [] || s[0] != '(' then Some((None, s))
    else
      var sc := ScopePrefix(s[1..]);
      var after := s[1 + |sc|..];
      if sc != [] && after != [] && after[0] == ')' then
        assert s == "(" + sc + ")" + after[1..];
        Some((Some(sc), after[1..]))
      else None
  }

  /** The rest of the pattern after the scope, `!?:\s(.+)$`: whether there is a `!`, the
      whitespace character after the colon, and the subject. */
  function ParseRest(r2: string): Option<(bool, char, string)> {
    var bang := r2 != [] && r2[0] == '!';
    var r3 := if bang then r2[1..] else r2;
    if |r3| >= 3 && r3[0] == ':' && IsSpace(r3[1]) && NoLineTerminator(r3[2..])
    then Some((bang, r3[1], r3[2..]))
    else None
  }

  /** `line.match(COMMIT_PATTERN)`. Each part of the pattern has only one way to match,
      so a left-to-right scan finds the match exactly when the pattern does. */
  function ParseHeader(line: string): Option<HeaderMatch> {
    var t := WordPrefix(line);
    if t == [] then None
    else
      match ScopePart(line[|t|..])
      case None => None
      case Some((scope, r2)) =>
        match ParseRest(r2)
        case None => None
        case Some((bang, gap, subject)) => Some(HeaderMatch(t, scope, bang, gap, subject))
  }

  lemma ParseRestSound(r2: string)
    requires ParseRest(r2).Some?
    ensures var (bang, gap, subject) := ParseRest(r2).value;
      && r2 == (if bang then "!" else "") + (":" + ([gap] + subject))
      && IsSpace(gap) && subject != [] && NoLineTerminator(subject)
  {
    var bang := r2 != [] && r2[0] == '!';
    var r3 := if bang then r2[1..] else r2;
    assert r2 == (if bang then "!" else "") + r3;
    assert r3 == ":" + ([r3[1]] + r3[2..]);
  }

  lemma ParseRestComplete(bang: bool, gap: char, subject: string)
    requires IsSpace(gap) && subject != [] && NoLineTerminator(subject)
    ensures ParseRest((if bang then "!" else "") + (":" + ([gap] + subject)))
         == Some((bang, gap, subject))
  {
    var r3 := ":" + ([gap] + subject);
    var r2 := (if bang then "!" else "") + r3;
    assert r3[2..] == subject;
    if bang {
      assert r2[1..] == r3;
    } else {
      assert r2 == r3;
    }
  }

  lemma ScopePartComplete(scope: Option<string>, r2: string)
    requires scope.Some? ==> scope.value != [] && AllScope(scope.value)
    requires r2 == [] || r2[0] != '('
    ensures ScopePart(ScopeText(scope) + r2) == Some((scope, r2))
  {
    match scope {
      case None =>
        assert ScopeText(scope) + r2 == r2;
      case Some(sc) =>
        var s := ScopeText(scope) + r2;
        assert s[1..] == sc + (")" + r2);
        ScopePrefixOfConcat(sc, ")" + r2);
        assert s[1 + |sc|..] == ")" + r2;
    }
  }

  /** Whatever the parser accepts is a well-formed header that reads back as the line. */
  lemma ParseHeaderSound(line: string)
    requires ParseHeader(line).Some?
    ensures WellFormed(ParseHeader(line).value)
    ensures Assemble(ParseHeader(line).value) == line
  {
    ParseHeaderWellFormed(line);
    ParseHeaderReadsBack(line);
  }

  lemma ParseHeaderWellFormed(line: string)
    requires ParseHeader(line).Some?
    ensures WellFormed(ParseHeader(line).value)
  {
    var t := WordPrefix(line);
    var (scope, r2) := ScopePart(line[|t|..]).value;
    ParseRestSound(r2);
  }

  lemma ParseHeaderReadsBack(line: string)
    requires ParseHeader(line).Some?
    ensures Assemble(ParseHeader(line).value) == line
  {
    var t := WordPrefix(line);
    var (scope, r2) := ScopePart(line[|t|..]).value;
    ReadsBackOfParts(line, t, r2, ParseHeader(line).value);
  }

  /** The pieces the parser splits a line into put it back together. */
  lemma ReadsBackOfParts(line: string, t: string, r2: string, m: HeaderMatch)
    requires t == WordPrefix(line) && m.commitType == t
    requires ScopePart(line[|t|..]) == Some((m.scope, r2))
    requires ParseRest(r2) == Some((m.bang, m.gap, m.subject))
    ensures Assemble(m) == line
  {
    var rest := line[|t|..];
    assert line == t + rest;
    ParseRestSound(r2);
    AssembleOfParts(line, t, rest, m, r2);
  }

  /** The text a match stands for, assembled from the pieces the parser split off. */
  lemma AssembleOfParts(line: string, t: string, rest: string, m: HeaderMatch, r2: string)
    requires line == t + rest && m.commitType == t
    requires rest == ScopeText(m.scope) + r2
    requires r2 == (if m.bang then "!" else "") + (":" + ([m.gap] + m.subject))
    ensures Assemble(m) == line
  {
  }

  /** Every well-formed header is accepted, with exactly its own parts. */
  lemma ParseHeaderComplete(m: HeaderMatch)
    requires WellFormed(m)
    ensures ParseHeader(Assemble(m)) == Some(m)
  {
    var r2 := (if m.bang then "!" else "") + (":" + ([m.gap] + m.subject));
    var r1 := ScopeText(m.scope) + r2;
    assert Assemble(m) == m.commitType + r1;
    assert r1 != [] && !IsWordChar(r1[0]);
    WordPrefixOfConcat(m.commitType, r1);
    assert Assemble(m)[|m.commitType|..] == r1;
    assert r2[0] == '!' || r2[0] == ':';
    ScopePartComplete(m.scope, r2);
    ParseRestComplete(m.bang, m.gap, m.subject);
  }

  // ---------------------------------------------------------------------------
  // validateCommitMessage

  /** The type, scope and subject the hook reports for a header that matched. */
  datatype Parsed = Parsed(commitType: string, scope: Option<string>, subject: string)

  /** The object `validateCommitMessage` returns; `parsed` is absent on an early return. */
  datatype Validation = Validation(
    valid: bool, parsed: Option<Parsed>, errors: seq<Issue>, warnings: seq<Issue>)

  /** The line that is checked: the first line of the message, trimmed. */
  function Header(message: string): string {
    Trim(FirstLine(message))
  }

  function TypeErrors(commitType: string): seq<Issue> {
    if commitType in AllowedTypes then [] else InvalidTypeErrors(commitType)
  }

  function SubjectErrors(subject: string): seq<Issue> {
    if |subject| < MinSubjectLength then [ShortSubjectError] else []
  }

  function LengthErrors(header: string): seq<Issue> {
    if |header| > MaxHeaderLength then [HeaderTooLongError(|header|)] else []
  }

  /** A trailing period, and a first character that `/[A-Z]/` matches. */
  function SubjectWarnings(subject: string): seq<Issue> {
    (if EndsWith(subject, ".") then [PeriodWarning] else [])
    + (if subject != [] && IsUpper(subject[0]) then [LowercaseWarning] else [])
  }

  /** The result `validateCommitMessage` is specified to return. */
  function Validate(message: string): (r: Validation)
    ensures r.valid <==> r.errors == []
    ensures AllSpace(message) ==> r == Validation(false, None, [EmptyError], [])
    ensures !AllSpace(message) && ParseHeader(Header(message)).None? ==>
      r == Validation(false, None, FormatErrors, [])
  {
    if Trim(message) == "" then Validation(false, None, [EmptyError], [])
    else
      var header := Header(message);
      match ParseHeader(header)
      case None => Validation(false, None, FormatErrors, [])
      case Some(m) =>
        var errors := TypeErrors(m.commitType) + SubjectErrors(m.subject) + LengthErrors(header);
        Validation(errors == [], Some(Parsed(m.commitType, m.scope, m.subject)),
                   errors, SubjectWarnings(m.subject))
  }

  /** The checks `validateCommitMessage` runs on a header that matched, pushing one
      message at a time: the type, the subject length, the two subject warnings, then the
      header length. */
  method CheckMatch(header: string, m: HeaderMatch) returns (errors: seq<Issue>, warnings: seq<Issue>)
    ensures errors == TypeErrors(m.commitType) + SubjectErrors(m.subject) + LengthErrors(header)
    ensures warnings == SubjectWarnings(m.subject)
  {
    errors, warnings := [], [];
    if m.commitType !in AllowedTypes {
      errors := errors + [InvalidTypeErrors(m.commitType)[0]];
      errors := errors + [InvalidTypeErrors(m.commitType)[1]];
    }
    assert errors == TypeErrors(m.commitType);
    if |m.subject| < MinSubjectLength {
      errors := errors + [ShortSubjectError];
    }
    assert errors == TypeErrors(m.commitType) + SubjectErrors(m.subject);
    if EndsWith(m.subject, ".") {
      warnings := warnings + [PeriodWarning];
    }
    if m.subject != [] && IsUpper(m.subject[0]) {
      warnings := warnings + [LowercaseWarning];
    }
    if |header| > MaxHeaderLength {
      errors := errors + [HeaderTooLongError(|header|)];
    }
  }

  /** `validateCommitMessage`: an early return for an empty message and for a header that
      does not match, otherwise the checks of CheckMatch. */
  method ValidateCommitMessage(message: string) returns (result: Validation)
    ensures result == Validate(message)
  {
    if Trim(message) == "" {
      result := ReportBlank(message);
      return;
    }
    var firstLine := Header(message);
    var found := ParseHeader(firstLine);
    if found.None? {
      result := ReportNoMatch(message);
      return;
    }
    result := ReportMatch(message, firstLine, found.value);
  }

  /** The early return of `validateCommitMessage` for an empty or blank message. */
  method ReportBlank(message: string) returns (result: Validation)
    requires Trim(message) == ""
    ensures result == Validate(message)
  {
    var errors: seq<Issue> := [];
    errors := errors + [EmptyError];
    ValidateOfBlank(message);
    result := Validation(false, None, errors, []);
  }

  /** The early return of `validateCommitMessage` for a header outside the pattern: the
      three format messages, pushed one after another. */
  method ReportNoMatch(message: string) returns (result: Validation)
    requires Trim(message) != "" && ParseHeader(Header(message)).None?
    ensures result == Validate(message)
  {
    var errors: seq<Issue> := [];
    errors := errors + [FormatInvalid];
    errors := errors + [FormatExpected];
    errors := errors + [FormatExample];
    FormatErrorsPushed();
    ValidateOfNoMatch(message);
    result := Validation(false, None, errors, []);
  }

  /** The tail of `validateCommitMessage` once the header matched: the checks, then the
      result object. */
  method ReportMatch(message: string, header: string, m: HeaderMatch) returns (result: Validation)
    requires Trim(message) != "" && header == Header(message) && ParseHeader(header) == Some(m)
    ensures result == Validate(message)
  {
    ValidateOfMatch(message, m);
    var errors, warnings := CheckMatch(header, m);
    result := Validation(|errors| == 0, Some(Parsed(m.commitType, m.scope, m.subject)),
                         errors, warnings);
  }

  /** The three pushes build the format error list. */
  lemma FormatErrorsPushed()
    ensures [] + [FormatInvalid] + [FormatExpected] + [FormatExample] == FormatErrors
  {
  }

  lemma ValidateOfBlank(message: string)
    requires Trim(message) == ""
    ensures Validate(message) == Validation(false, None, [EmptyError], [])
  {
  }

  lemma ValidateOfNoMatch(message: string)
    requires Trim(message) != "" && ParseHeader(Header(message)).None?
    ensures Validate(message) == Validation(false, None, FormatErrors, [])
  {
  }

  /** Validate on a message whose header matched. */
  lemma ValidateOfMatch(message: string, m: HeaderMatch)
    requires Trim(message) != "" && ParseHeader(Header(message)) == Some(m)
    ensures Validate(message) == Validation(
      TypeErrors(m.commitType) + SubjectErrors(m.subject) + LengthErrors(Header(message)) == [],
      Some(Parsed(m.commitType, m.scope, m.subject)),
      TypeErrors(m.commitType) + SubjectErrors(m.subject) + LengthErrors(Header(message)),
      SubjectWarnings(m.subject))
  {
  }

  /** Only the first line is examined: what follows the first line feed never matters. */
  lemma OnlyFirstLineMatters(line: string, rest: string)
    requires '\n' !in line
    requires !AllSpace(line)
    ensures Validate(line + "\n" + rest) == Validate(line)
  {
    FirstLineOfLines(line, rest);
    var i :| 0 <= i < |line| && !IsSpace(line[i]);
    assert (line + "\n" + rest)[i] == line[i];
  }

  /** A header outside the grammar gets exactly the three format errors and nothing else. */
  lemma MalformedHeader(message: string)
    requires !AllSpace(message)
    requires forall m :: WellFormed(m) ==> Assemble(m) != Header(message)
    ensures Validate(message) == Validation(false, None, FormatErrors, [])
  {
    if ParseHeader(Header(message)).Some? {
      ParseHeaderSound(Header(message));
    }
  }

  /** A header inside the grammar reports its own type, scope (the text between the
      parentheses) and subject; its errors come in the order type, subject, length, and
      its warnings are those of the subject. */
  lemma WellFormedHeader(message: string, m: HeaderMatch)
    requires !AllSpace(message)
    requires WellFormed(m) && Assemble(m) == Header(message)
    ensures Validate(message).parsed == Some(Parsed(m.commitType, m.scope, m.subject))
    ensures Validate(message).errors
         == TypeErrors(m.commitType) + SubjectErrors(m.subject) + LengthErrors(Header(message))
    ensures Validate(message).warnings == SubjectWarnings(m.subject)
  {
    ParseHeaderComplete(m);
  }

  /** A message is valid exactly when it is not blank, its header matches, the type is
      allowed, the subject has at least 3 characters and the header at most 100; the
      two warnings play no part. */
  lemma ValidIff(message: string)
    ensures Validate(message).valid <==>
      && !AllSpace(message)
      && ParseHeader(Header(message)).Some?
      && ParseHeader(Header(message)).value.commitType in AllowedTypes
      && |ParseHeader(Header(message)).value.subject| >= MinSubjectLength
      && |Header(message)| <= MaxHeaderLength
  {
    if !AllSpace(message) && ParseHeader(Header(message)).Some? {
      ValidateOfMatch(message, ParseHeader(Header(message)).value);
    }
  }

  /** A line without a line feed and without outer whitespace is its own header. */
  lemma HeaderOfPlainLine(line: string)
    requires '\n' !in line
    requires line != [] && !IsSpace(line[0]) && !IsSpace(line[|line| - 1])
    ensures Header(line) == line
  {
    FirstLineOfLines(line, "");
    assert TrimStart(line) == line;
    assert TrimEnd(line) == line;
  }

  /** Every allowed type starts with a lower-case letter. */
  lemma CapitalisedTypeNotAllowed(t: string)
    requires t != [] && IsUpper(t[0])
    ensures t !in AllowedTypes
  {
    forall i | 0 <= i < |AllowedTypes| ensures AllowedTypes[i] != t {
      assert IsLower(AllowedTypes[i][0]);
    }
  }

  /** The type check is case-sensitive: a header whose type starts with a capital letter
      ("Feat", "FIX") is rejected, and its first two errors are the type errors. */
  lemma TypeIsCaseSensitive(message: string, m: HeaderMatch)
    requires !AllSpace(message)
    requires WellFormed(m) && Assemble(m) == Header(message)
    requires IsUpper(m.commitType[0])
    ensures !Validate(message).valid
    ensures |Validate(message).errors| >= 2
         && Validate(message).errors[..2] == InvalidTypeErrors(m.commitType)
  {
    CapitalisedTypeNotAllowed(m.commitType);
    TypeErrorsFirst(message, m);
  }

  /** A well-formed header with a type outside the list is rejected, and its errors start
      with the two type errors. */
  lemma TypeErrorsFirst(message: string, m: HeaderMatch)
    requires !AllSpace(message)
    requires WellFormed(m) && Assemble(m) == Header(message)
    requires m.commitType !in AllowedTypes
    ensures !Validate(message).valid
    ensures |Validate(message).errors| >= 2
         && Validate(message).errors[..2] == InvalidTypeErrors(m.commitType)
  {
    ParseHeaderComplete(m);
    ValidateOfMatch(message, m);
    PrefixOfConcat(InvalidTypeErrors(m.commitType), SubjectErrors(m.subject),
                   LengthErrors(Header(message)));
  }

  lemma PrefixOfConcat(a: seq<Issue>, b: seq<Issue>, c: seq<Issue>)
    ensures |a + b + c| >= |a| && (a + b + c)[..|a|] == a
  {
  }

  /** Warnings never make a message invalid: a well-formed header with an allowed type, a
      subject of at least 3 characters and at most 100 characters in all is valid, with
      the warnings of its subject. */
  lemma WarningsKeepValidity(message: string, m: HeaderMatch)
    requires !AllSpace(message)
    requires WellFormed(m) && Assemble(m) == Header(message)
    requires m.commitType in AllowedTypes
    requires |m.subject| >= MinSubjectLength && |Header(message)| <= MaxHeaderLength
    ensures Validate(message).valid
    ensures Validate(message).warnings == SubjectWarnings(m.subject)
  {
    WellFormedHeader(message, m);
  }

  // ---------------------------------------------------------------------------
  // main: comment stripping and the exit status

  /** The lines that do not start with "#", in their order. */
  function Uncommented(lines: seq<string>): (r: seq<string>)
    ensures forall i :: 0 <= i < |r| ==> !StartsWith(r[i], "#")
    ensures |r| <= |lines|
  {
    if lines == [] then []
    else (if StartsWith(lines[0], "#") then [] else [lines[0]]) + Uncommented(lines[1..])
  }

  /** The text with its comment lines removed, before the final trim. */
  function StripComments(text: string): string {
    JoinWith(Uncommented(SplitOn(text, '\n')), "\n")
  }

  /** The message `main` validates: the file text trimmed, comment lines dropped, the
      remaining lines rejoined and trimmed again. */
  function CleanMessage(fileText: string): string {
    Trim(StripComments(Trim(fileText)))
  }

  /** After stripping, no line starts with "#". */
  lemma StrippedHasNoComments(text: string)
    ensures forall l :: l in SplitOn(StripComments(text), '\n') ==> !StartsWith(l, "#")
  {
    var kept := Uncommented(SplitOn(text, '\n'));
    if kept == [] {
      assert SplitOn(StripComments(text), '\n') == [""];
    } else {
      forall i | 0 <= i < |kept| ensures '\n' !in kept[i] {
        UncommentedFrom(SplitOn(text, '\n'), i);
      }
      SplitJoin(kept, '\n');
    }
  }

  /** Every kept line is one of the input lines. */
  lemma {:induction false} UncommentedFrom(lines: seq<string>, i: nat)
    requires i < |Uncommented(lines)|
    ensures Uncommented(lines)[i] in lines
  {
    if StartsWith(lines[0], "#") {
      UncommentedFrom(lines[1..], i);
    } else if i > 0 {
      UncommentedFrom(lines[1..], i - 1);
    }
  }

  lemma {:induction false} UncommentedNone(lines: seq<string>)
    requires forall i :: 0 <= i < |lines| ==> !StartsWith(lines[i], "#")
    ensures Uncommented(lines) == lines
  {
    if lines != [] {
      UncommentedNone(lines[1..]);
    }
  }

  /** Text without comment lines reaches the validator merely trimmed. */
  lemma CleanWithoutComments(fileText: string)
    requires forall l :: l in SplitOn(Trim(fileText), '\n') ==> !StartsWith(l, "#")
    ensures CleanMessage(fileText) == Trim(fileText)
  {
    var lines := SplitOn(Trim(fileText), '\n');
    UncommentedNone(lines);
    JoinSplit(Trim(fileText), '\n');
    TrimIdempotent(fileText);
  }

  /** The exit status of the hook: 0 for `--help`/`-h` and for a valid message, 1 when no
      file is named, when it cannot be read (`None`) or when the message is invalid. */
  function ExitCode(args: seq<string>, fileText: Option<string>): (code: int)
    ensures code == 0 || code == 1
    ensures code == 0 <==>
      ("--help" in args || "-h" in args
       || (args != [] && fileText.Some? && Validate(CleanMessage(fileText.value)).valid))
  {
    if "--help" in args || "-h" in args then 0
    else if args == [] then 1
    else match fileText
      case None => 1
      case Some(text) => if Validate(CleanMessage(text)).valid then 0 else 1
  }
}
