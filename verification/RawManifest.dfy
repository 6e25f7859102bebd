/** Git's NUL-delimited raw manifest and its two parsers: the local one (`parse_raw_diff_z` and the gitlink override of
    `capture_tracked_files` in crates/git/src/lib.rs) and the companion's (`parse_remote_raw_diff` in
    crates/cli/src/main.rs). A string is a sequence of bytes here, one char each. */
module RawManifest {
  import opened Wrappers
  import opened GitQuoting
  import opened HunkHeaders
  import opened Words

  datatype ManifestError = NotText | BadMode | BadObject | BadStatus | ExtraFields | BadSimilarity | MissingPath | BadPath |
                           Unsupported

  datatype Kind = Added | Deleted | Renamed | Copied | TypeChanged | ModeChanged | Modified | Submodule

  datatype LocalEntry = LocalEntry(path: string, oldPath: Option<string>, kind: Kind, oldMode: nat, newMode: nat)

  datatype RemoteEntry = RemoteEntry(path: string, oldPath: Option<string>, status: Kind, similarity: Option<nat>,
                                     oldMode: nat, newMode: nat, oldObject: Option<string>, newObject: Option<string>)

  /** What the parsers take from the environment: UTF-8 checking, lossy decoding and the protocol's path rules. */
  datatype Rules = Rules(utf8: string -> bool, lossy: string -> string, relative: string -> bool)

  const GITLINK := 57344  // mode 160000 in octal

  /* ---- Fields ---- */

  const NUL := '\0'

  function SkipNul(s: string): (rest: string)
    ensures |rest| <= |s| && (rest != "" ==> rest[0] != NUL)
  {
    if s != "" && s[0] == NUL then SkipNul(s[1..]) else s
  }

  function FieldLength(s: string): (n: nat)
    ensures n <= |s| && (s != "" && s[0] != NUL ==> n > 0)
  {
    if s != "" && s[0] != NUL then 1 + FieldLength(s[1..]) else 0
  }

  /** The non-empty pieces between NUL bytes. */
  function Fields(bytes: string): seq<string>
    decreases |bytes|
  {
    var s := SkipNul(bytes);
    if s == "" then [] else [s[..FieldLength(s)]] + Fields(s[FieldLength(s)..])
  }

  /* ---- Headers ---- */

  predicate AllOctal(s: string) {
    forall c | c in s :: IsOctal(c)
  }

  function OctalValue(s: string): nat
    requires AllOctal(s)
  {
    if s == "" then 0
    else
      assert s[|s| - 1] in s;
      OctalValue(s[..|s| - 1]) * 8 + Digit(s[|s| - 1])
  }

  /** Rust's unsigned parsing in base 8. */
  function ParseOctal(s: string): Option<nat> {
    var body := if s != "" && s[0] == '+' then s[1..] else s;
    if body == "" || !AllOctal(body) || OctalValue(body) > U32_MAX then None else Some(OctalValue(body))
  }

  function ParseOldMode(word: string): Option<nat> {
    if ":" <= word then ParseOctal(word[1..]) else None
  }

  datatype LocalHeader = LocalHeader(oldMode: nat, newMode: nat, status: char)

  function ParseLocalHeader(field: string, rules: Rules): Result<LocalHeader, ManifestError> {
    if !rules.utf8(field) then Err(NotText) else LocalWords(Split(field))
  }

  function LocalWords(words: seq<string>): Result<LocalHeader, ManifestError> {
    if |words| < 1 || ParseOldMode(words[0]).None? then Err(BadMode)
    else if |words| < 2 || ParseOctal(words[1]).None? then Err(BadMode)
    else if |words| < 4 then Err(BadObject)
    else if |words| < 5 || words[4] == "" then Err(BadStatus)
    else if |words| > 5 then Err(ExtraFields)
    else Ok(LocalHeader(ParseOldMode(words[0]).value, ParseOctal(words[1]).value, words[4][0]))
  }

  predicate IsHex(c: char) {
    '0' <= c <= '9' || 'a' <= c <= 'f' || 'A' <= c <= 'F'
  }

  predicate AllHex(word: string) {
    word == "" || (IsHex(word[0]) && AllHex(word[1..]))
  }

  predicate AllZeros(word: string) {
    word == "" || (word[0] == '0' && AllZeros(word[1..]))
  }

  predicate IsObject(word: string) {
    4 <= |word| <= 64 && AllHex(word)
  }

  function LowerHex(s: string): string {
    if s == "" then "" else [if 'A' <= s[0] <= 'F' then s[0] - 'A' + 'a' else s[0]] + LowerHex(s[1..])
  }

  /** An object id of zeros stands for no object. */
  function ObjectOf(word: string): Option<string> {
    if AllZeros(word) then None else Some(LowerHex(word))
  }

  datatype RemoteHeader = RemoteHeader(oldMode: nat, newMode: nat, oldObject: Option<string>,
      newObject: Option<string>, token: string)

  function ParseRemoteHeader(field: string, rules: Rules): (r: Result<RemoteHeader, ManifestError>)
    ensures r.Ok? ==> r.value.token != ""
  {
    if !rules.utf8(field) then Err(NotText) else RemoteWords(Split(field))
  }

  function RemoteWords(words: seq<string>): (r: Result<RemoteHeader, ManifestError>)
    ensures r.Ok? ==> r.value.token != ""
  {
    if |words| < 1 || ParseOldMode(words[0]).None? then Err(BadMode)
    else if |words| < 2 || ParseOctal(words[1]).None? then Err(BadMode)
    else if |words| < 3 || !IsObject(words[2]) then Err(BadObject)
    else if |words| < 4 || !IsObject(words[3]) then Err(BadObject)
    else if |words| < 5 || words[4] == "" then Err(BadStatus)
    else if |words| > 5 then Err(ExtraFields)
    else Ok(RemoteHeader(ParseOldMode(words[0]).value, ParseOctal(words[1]).value, ObjectOf(words[2]),
        ObjectOf(words[3]), words[4]))
  }

  /* ---- Entries ---- */

  predicate HasTwoPaths(status: char) {
    status == 'R' || status == 'C'
  }

  predicate IsGitlink(oldMode: nat, newMode: nat) {
    oldMode == GITLINK || newMode == GITLINK
  }

  function KindOf(status: char, oldMode: nat, newMode: nat): Option<Kind> {
    match status
    case 'A' => Some(Added)
    case 'D' => Some(Deleted)
    case 'R' => Some(Renamed)
    case 'C' => Some(Copied)
    case 'T' => Some(TypeChanged)
    case 'M' => Some(if oldMode != newMode then ModeChanged else Modified)
    case _ => None
  }

  /** The paths and the kind after a header. */
  function LocalBody(header: LocalHeader, fields: seq<string>, rules: Rules): (r: Result<(LocalEntry, nat), ManifestError>)
    requires fields != []
    ensures r.Ok? ==> 2 <= r.value.1 <= |fields|
  {
    if |fields| < 2 then Err(MissingPath)
    else if HasTwoPaths(header.status) && |fields| < 3 then Err(MissingPath)
    else
      match KindOf(header.status, header.oldMode, header.newMode)
      case None => Err(Unsupported)
      case Some(kind) =>
        if HasTwoPaths(header.status)
        then Ok((LocalEntry(rules.lossy(fields[2]), Some(rules.lossy(fields[1])), kind, header.oldMode, header.newMode), 3))
        else Ok((LocalEntry(rules.lossy(fields[1]), None, kind, header.oldMode, header.newMode), 2))
  }

  /** One entry and the number of fields it took. */
  function LocalStep(fields: seq<string>, rules: Rules): (r: Result<(LocalEntry, nat), ManifestError>)
    requires fields != []
    ensures r.Ok? ==> 2 <= r.value.1 <= |fields|
  {
    var header :- ParseLocalHeader(fields[0], rules);
    LocalBody(header, fields, rules)
  }

  function ParseLocal(fields: seq<string>, rules: Rules): Result<seq<LocalEntry>, ManifestError> {
    if fields == [] then Ok([])
    else
      var step :- LocalStep(fields, rules);
      Extended([step.0], ParseLocal(fields[step.1..], rules))
  }

  /** Submodules are reported as such, whatever else changed. */
  function WithGitlink(e: LocalEntry): LocalEntry {
    if IsGitlink(e.oldMode, e.newMode) then e.(kind := Submodule) else e
  }

  function Similarity(token: string): Result<Option<nat>, ManifestError>
    requires token != ""
  {
    if !HasTwoPaths(token[0]) then Ok(None)
    else
      match ParseU32(token[1..])
      case Some(score) => if score <= 100 then Ok(Some(score)) else Err(BadSimilarity)
      case None => Err(BadSimilarity)
  }

  function ParsePath(field: string, rules: Rules): Result<string, ManifestError> {
    if !rules.utf8(field) || !rules.relative(field) then Err(BadPath) else Ok(field)
  }

  function RemoteStatus(status: char, oldMode: nat, newMode: nat): Option<Kind> {
    if IsGitlink(oldMode, newMode) then Some(Submodule) else KindOf(status, oldMode, newMode)
  }

  function RemoteBody(header: RemoteHeader, fields: seq<string>, rules: Rules): (r: Result<(RemoteEntry, nat),
      ManifestError>)
    requires fields != [] && header.token != ""
    ensures r.Ok? ==> 2 <= r.value.1 <= |fields|
  {
    var similarity :- Similarity(header.token);
    if |fields| < 2 then Err(MissingPath)
    else
      var first :- ParsePath(fields[1], rules);
      var two := HasTwoPaths(header.token[0]);
      if two && |fields| < 3 then Err(MissingPath)
      else
        var second :- if two then ParsePath(fields[2], rules) else Ok(first);
        match RemoteStatus(header.token[0], header.oldMode, header.newMode)
        case None => Err(Unsupported)
        case Some(status) =>
          Ok((RemoteEntry(second, if two then Some(first) else None, status, similarity,
                          header.oldMode, header.newMode, header.oldObject, header.newObject), if two then 3 else 2))
  }

  function RemoteStep(fields: seq<string>, rules: Rules): (r: Result<(RemoteEntry, nat), ManifestError>)
    requires fields != []
    ensures r.Ok? ==> 2 <= r.value.1 <= |fields|
  {
    var header :- ParseRemoteHeader(fields[0], rules);
    RemoteBody(header, fields, rules)
  }

  function ParseRemote(fields: seq<string>, rules: Rules): Result<seq<RemoteEntry>, ManifestError> {
    if fields == [] then Ok([])
    else
      var step :- RemoteStep(fields, rules);
      Extended([step.0], ParseRemote(fields[step.1..], rules))
  }

  lemma LocalOneMore(fields: seq<string>, done: seq<LocalEntry>, rules: Rules)
    requires fields != []
    ensures LocalStep(fields, rules).Err? ==> Extended(done, ParseLocal(fields, rules)) == Err(LocalStep(fields, rules).error)
    ensures LocalStep(fields, rules).Ok? ==>
              var step := LocalStep(fields, rules).value;
              Extended(done, ParseLocal(fields, rules)) == Extended(done + [step.0], ParseLocal(fields[step.1..], rules))
  {
    if LocalStep(fields, rules).Ok? {
      var step := LocalStep(fields, rules).value;
      ExtendedMore(done, step.0, ParseLocal(fields[step.1..], rules));
    }
  }

  method ParseRawDiffZ(bytes: string, rules: Rules) returns (r: Result<seq<LocalEntry>, ManifestError>)
    ensures r == ParseLocal(Fields(bytes), rules)
  {
    var fields := Fields(bytes);
    ghost var all := ParseLocal(fields, rules);
    var result: seq<LocalEntry> := [];
    assert all.Ok? ==> [] + all.value == all.value;
    while fields != []
      invariant Extended(result, ParseLocal(fields, rules)) == all
      decreases |fields|
    {
      LocalOneMore(fields, result, rules);
      var step := LocalStep(fields, rules);
      if step.Err? {
        return Err(step.error);
      }
      result := result + [step.value.0];
      fields := fields[step.value.1..];
    }
    assert result + [] == result;
    return Ok(result);
  }

  lemma RemoteOneMore(fields: seq<string>, done: seq<RemoteEntry>, rules: Rules)
    requires fields != []
    ensures RemoteStep(fields, rules).Err? ==>
            Extended(done, ParseRemote(fields, rules)) == Err(RemoteStep(fields, rules).error)
    ensures RemoteStep(fields, rules).Ok? ==>
              var step := RemoteStep(fields, rules).value;
              Extended(done, ParseRemote(fields, rules)) == Extended(done + [step.0], ParseRemote(fields[step.1..], rules))
  {
    if RemoteStep(fields, rules).Ok? {
      var step := RemoteStep(fields, rules).value;
      ExtendedMore(done, step.0, ParseRemote(fields[step.1..], rules));
    }
  }

  method ParseRemoteRawDiff(bytes: string, rules: Rules) returns (r: Result<seq<RemoteEntry>, ManifestError>)
    ensures r == ParseRemote(Fields(bytes), rules)
  {
    var fields := Fields(bytes);
    ghost var all := ParseRemote(fields, rules);
    var entries: seq<RemoteEntry> := [];
    assert all.Ok? ==> [] + all.value == all.value;
    while fields != []
      invariant Extended(entries, ParseRemote(fields, rules)) == all
      decreases |fields|
    {
      RemoteOneMore(fields, entries, rules);
      var step := RemoteStep(fields, rules);
      if step.Err? {
        return Err(step.error);
      }
      entries := entries + [step.value.0];
      fields := fields[step.value.1..];
    }
    assert entries + [] == entries;
    return Ok(entries);
  }

  /* ---- The two parsers agree ---- */

  /** Paths that are text read the same lossily. */
  ghost predicate Faithful(rules: Rules) {
    forall p :: rules.utf8(p) ==> rules.lossy(p) == p
  }

  predicate Agree(local: LocalEntry, remote: RemoteEntry) {
    && local.path == remote.path && local.oldPath == remote.oldPath && local.kind == remote.status
    && local.oldMode == remote.oldMode && local.newMode == remote.newMode
  }

  /** The status letter of the next entry is one both parsers know. */
  predicate KnownLetter(field: string) {
    |Split(field)| > 4 && Split(field)[4] != "" && Split(field)[4][0] in "ACDMRT"
  }

  /** The status letters of all entries are known, reading on as the companion does. */
  predicate KnownLetters(fields: seq<string>, rules: Rules) {
    fields == [] || RemoteStep(fields, rules).Err? ||
    (KnownLetter(fields[0]) && KnownLetters(fields[RemoteStep(fields, rules).value.1..], rules))
  }

  lemma LettersOfKinds(status: char, oldMode: nat, newMode: nat)
    ensures KindOf(status, oldMode, newMode).Some? <==> status in "ACDMRT"
    ensures HasTwoPaths(status) ==> status in "ACDMRT"
  {
  }

  lemma WordsAgree(words: seq<string>)
    requires RemoteWords(words).Ok?
    ensures var header := RemoteWords(words).value;
            && |words| == 5 && header.token == words[4] != ""
            && LocalWords(words) == Ok(LocalHeader(header.oldMode, header.newMode, header.token[0]))
  {
  }

  lemma HeadersAgree(field: string, rules: Rules)
    requires ParseRemoteHeader(field, rules).Ok?
    ensures var header := ParseRemoteHeader(field, rules).value;
            && header.token != ""
            && ParseLocalHeader(field, rules) == Ok(LocalHeader(header.oldMode, header.newMode, header.token[0]))
            && (KnownLetter(field) <==> header.token[0] in "ACDMRT")
  {
    WordsAgree(Split(field));
  }

  lemma BodiesAgree(header: RemoteHeader, fields: seq<string>, rules: Rules)
    requires Faithful(rules) && fields != [] && header.token != "" && RemoteBody(header, fields, rules).Ok?
    ensures var local := LocalBody(LocalHeader(header.oldMode, header.newMode, header.token[0]), fields, rules);
            var remote := RemoteBody(header, fields, rules);
            && (local.Ok? <==> header.token[0] in "ACDMRT")
            && (local.Ok? ==> local.value.1 == remote.value.1 && Agree(WithGitlink(local.value.0), remote.value.0))
            && (!IsGitlink(remote.value.0.oldMode, remote.value.0.newMode) ==> header.token[0] in "ACDMRT")
  {
    LettersOfKinds(header.token[0], header.oldMode, header.newMode);
  }

  /** An entry the companion accepts is accepted locally exactly when its letter is known, and is then the same entry. */
  lemma StepsAgree(fields: seq<string>, rules: Rules)
    requires Faithful(rules) && fields != [] && RemoteStep(fields, rules).Ok?
    ensures LocalStep(fields, rules).Ok? <==> KnownLetter(fields[0])
    ensures LocalStep(fields, rules).Ok? ==>
              LocalStep(fields, rules).value.1 == RemoteStep(fields, rules).value.1 &&
              Agree(WithGitlink(LocalStep(fields, rules).value.0), RemoteStep(fields, rules).value.0)
    ensures !IsGitlink(RemoteStep(fields, rules).value.0.oldMode, RemoteStep(fields, rules).value.0.newMode) ==>
            KnownLetter(fields[0])
  {
    HeadersAgree(fields[0], rules);
    BodiesAgree(ParseRemoteHeader(fields[0], rules).value, fields, rules);
  }

  predicate AllAgree(local: seq<LocalEntry>, remote: seq<RemoteEntry>) {
    |local| == |remote| && forall k | 0 <= k < |local| :: Agree(WithGitlink(local[k]), remote[k])
  }

  /** A manifest the companion accepts is accepted locally exactly when every status letter is known, and both then list the
      same paths, old paths, modes and statuses. */
  lemma {:induction false} ManifestsAgree(fields: seq<string>, rules: Rules)
    requires Faithful(rules) && ParseRemote(fields, rules).Ok?
    ensures ParseLocal(fields, rules).Ok? <==> KnownLetters(fields, rules)
    ensures ParseLocal(fields, rules).Ok? ==> AllAgree(ParseLocal(fields, rules).value, ParseRemote(fields, rules).value)
    decreases |fields|
  {
    if fields != [] {
      StepsAgree(fields, rules);
      ManifestsAgree(fields[RemoteStep(fields, rules).value.1..], rules);
      if ParseLocal(fields, rules).Ok? {
        AgreeCons(LocalStep(fields, rules).value.0, RemoteStep(fields, rules).value.0,
                  ParseLocal(fields[RemoteStep(fields, rules).value.1..], rules).value,
                  ParseRemote(fields[RemoteStep(fields, rules).value.1..], rules).value);
      }
    }
  }

  lemma AgreeCons(first: LocalEntry, other: RemoteEntry, local: seq<LocalEntry>, remote: seq<RemoteEntry>)
    requires Agree(WithGitlink(first), other) && AllAgree(local, remote)
    ensures AllAgree([first] + local, [other] + remote)
  {
  }

  predicate NoGitlinks(entries: seq<RemoteEntry>) {
    entries == [] || (!IsGitlink(entries[0].oldMode, entries[0].newMode) && NoGitlinks(entries[1..]))
  }

  /** Only submodules can have a letter that the local parser does not know. */
  lemma {:induction false} OthersHaveKnownLetters(fields: seq<string>, rules: Rules)
    requires Faithful(rules) && ParseRemote(fields, rules).Ok? && NoGitlinks(ParseRemote(fields, rules).value)
    ensures KnownLetters(fields, rules)
    decreases |fields|
  {
    if fields != [] {
      var step := RemoteStep(fields, rules).value;
      var rest := ParseRemote(fields[step.1..], rules).value;
      StepsAgree(fields, rules);
      assert ([step.0] + rest)[1..] == rest;
      OthersHaveKnownLetters(fields[step.1..], rules);
    }
  }

  /* ---- Printing ---- */

  /** A manifest entry as Git prints it; the second path is the target of a rename or copy. */
  datatype Raw = Raw(oldMode: nat, newMode: nat, oldObject: string, newObject: string, status: char, score: nat,
                     first: string, second: string)

  /** At least `width` octal digits. */
  function Octal(n: nat, width: nat): (s: string)
    ensures AllOctal(s) && (width > 0 ==> s != "")
    decreases n, width
  {
    if n == 0 && width == 0 then ""
    else Octal(n / 8, if width == 0 then 0 else width - 1) + [OctalDigit(n % 8)]
  }

  /** The score of a rename or copy has three digits. */
  function Score(n: nat): string {
    (if n < 10 then "00" else if n < 100 then "0" else "") + Decimal(n)
  }

  function Token(raw: Raw): string {
    if HasTwoPaths(raw.status) then [raw.status] + Score(raw.score) else [raw.status]
  }

  function HeaderWords(raw: Raw): seq<string> {
    [":" + Octal(raw.oldMode, 6), Octal(raw.newMode, 6), raw.oldObject, raw.newObject, Token(raw)]
  }

  function Header(raw: Raw): string {
    Join(HeaderWords(raw))
  }

  function RawFields(raw: Raw): seq<string> {
    [Header(raw), raw.first] + if HasTwoPaths(raw.status) then [raw.second] else []
  }

  function AllFields(raws: seq<Raw>): seq<string> {
    if raws == [] then [] else RawFields(raws[0]) + AllFields(raws[1..])
  }

  /** Every field followed by a NUL. */
  function Terminated(fields: seq<string>): string {
    if fields == [] then "" else fields[0] + (['\0'] + Terminated(fields[1..]))
  }

  function PrintManifest(raws: seq<Raw>): string {
    Terminated(AllFields(raws))
  }

  predicate IsField(s: string) {
    s != "" && NUL !in s
  }

  predicate PathFits(path: string, rules: Rules) {
    IsField(path) && rules.utf8(path) && rules.relative(path)
  }

  predicate ObjectFits(word: string) {
    && 4 <= |word| <= 64
    && forall i | 0 <= i < |word| :: '0' <= word[i] <= '9' || 'a' <= word[i] <= 'f' || 'A' <= word[i] <= 'F'
  }

  predicate RawFits(raw: Raw, rules: Rules) {
    && raw.oldMode <= 0xFFFF_FFFF && raw.newMode <= 0xFFFF_FFFF
    && ObjectFits(raw.oldObject) && ObjectFits(raw.newObject)
    && raw.status in "ACDMRT" && raw.score <= 100 && rules.utf8(Header(raw))
    && PathFits(raw.first, rules) && (HasTwoPaths(raw.status) ==> PathFits(raw.second, rules))
  }

  /** What a status letter stands for, when no submodule is involved. */
  predicate LetterSays(raw: Raw, kind: Kind) {
    match raw.status
    case 'A' => kind == Added
    case 'D' => kind == Deleted
    case 'R' => kind == Renamed
    case 'C' => kind == Copied
    case 'T' => kind == TypeChanged
    case 'M' => kind == if raw.oldMode == raw.newMode then Modified else ModeChanged
    case _ => false
  }

  /** A file mode of 160000 octal on either side marks a submodule, whatever the letter. */
  predicate KindSays(raw: Raw, kind: Kind) {
    if raw.oldMode == 0xE000 || raw.newMode == 0xE000 then kind == Submodule else LetterSays(raw, kind)
  }

  /** Renames and copies have two paths, the old one first. */
  predicate PathsSay(raw: Raw, path: string, oldPath: Option<string>) {
    if raw.status == 'R' || raw.status == 'C' then path == raw.second && oldPath == Some(raw.first)
    else path == raw.first && oldPath == None
  }

  /** An object id, in lower case; zeros only stand for no object. */
  predicate ObjectSays(word: string, id: Option<string>) {
    if forall i | 0 <= i < |word| :: word[i] == '0' then id == None
    else
      && id.Some? && |id.value| == |word|
      && forall i | 0 <= i < |word| ::
           id.value[i] == if 'A' <= word[i] <= 'F' then (word[i] as int + 32) as char else word[i]
  }

  predicate RemoteSays(raw: Raw, e: RemoteEntry) {
    && PathsSay(raw, e.path, e.oldPath) && KindSays(raw, e.status) && e.oldMode == raw.oldMode && e.newMode == raw.newMode
    && e.similarity == (if raw.status == 'R' || raw.status == 'C' then Some(raw.score) else None)
    && ObjectSays(raw.oldObject, e.oldObject) && ObjectSays(raw.newObject, e.newObject)
  }

  /** The local entry as parsed, and as it is after the submodule override. */
  predicate LocalSays(raw: Raw, e: LocalEntry) {
    && PathsSay(raw, e.path, e.oldPath) && LetterSays(raw, e.kind) && e.oldMode == raw.oldMode && e.newMode == raw.newMode
    && KindSays(raw, WithGitlink(e).kind) && WithGitlink(e) == e.(kind := WithGitlink(e).kind)
  }

  lemma {:induction false} ZerosOnly(word: string)
    ensures AllZeros(word) <==> forall i | 0 <= i < |word| :: word[i] == '0'
  {
    if word != "" {
      ZerosOnly(word[1..]);
      assert forall i | 0 < i < |word| :: word[i] == word[1..][i - 1];
      assert forall i | 0 <= i < |word| - 1 :: word[1..][i] == word[i + 1];
    }
  }

  lemma {:induction false} LowerAt(word: string, i: nat)
    requires i < |word|
    ensures |LowerHex(word)| == |word|
    ensures LowerHex(word)[i] == if 'A' <= word[i] <= 'F' then (word[i] as int + 32) as char else word[i]
  {
    if i > 0 {
      LowerAt(word[1..], i - 1);
    } else if |word| > 1 {
      LowerAt(word[1..], 0);
    }
  }

  lemma ObjectIs(word: string)
    ensures ObjectSays(word, ObjectOf(word))
  {
    ZerosOnly(word);
    if !AllZeros(word) {
      LowerAt(word, 0);
      forall i: nat | i < |word|
        ensures LowerHex(word)[i] == if 'A' <= word[i] <= 'F' then (word[i] as int + 32) as char else word[i]
      {
        LowerAt(word, i);
      }
    }
  }

  lemma {:induction false} HexOnly(word: string)
    ensures AllHex(word) <==>
            forall i | 0 <= i < |word| :: '0' <= word[i] <= '9' || 'a' <= word[i] <= 'f' || 'A' <= word[i] <= 'F'
  {
    if word != "" {
      HexOnly(word[1..]);
      assert forall i | 0 < i < |word| :: word[i] == word[1..][i - 1];
      assert forall i | 0 <= i < |word| - 1 :: word[1..][i] == word[i + 1];
    }
  }

  lemma OctalSnoc(s: string, d: nat)
    requires AllOctal(s) && d < 8
    ensures AllOctal(s + [OctalDigit(d)]) && OctalValue(s + [OctalDigit(d)]) == OctalValue(s) * 8 + d
  {
    assert (s + [OctalDigit(d)])[..|s|] == s;
  }

  lemma {:induction false} OctalReads(n: nat, width: nat)
    ensures OctalValue(Octal(n, width)) == n
    decreases n, width
  {
    if n > 0 || width > 0 {
      OctalReads(n / 8, if width == 0 then 0 else width - 1);
      OctalSnoc(Octal(n / 8, if width == 0 then 0 else width - 1), n % 8);
    }
  }

  lemma ModeReads(n: nat)
    ensures ParseOctal(Octal(n, 6)) == if n <= 0xFFFF_FFFF then Some(n) else None
    ensures ParseOldMode(":" + Octal(n, 6)) == ParseOctal(Octal(n, 6))
  {
    OctalReads(n, 6);
    assert (":" + Octal(n, 6))[1..] == Octal(n, 6);
    assert Octal(n, 6)[0] in Octal(n, 6);
  }

  lemma {:induction false} ZeroFirst(s: string)
    requires AllDigits(s)
    ensures AllDigits("0" + s) && DigitsValue("0" + s) == DigitsValue(s)
  {
    if s == "" {
      assert "0" + s == "0" && "0"[..0] == "";
    } else {
      var init := s[..|s| - 1];
      ZeroFirst(init);
      assert ("0" + s)[..|s|] == "0" + init;
    }
  }

  lemma DigitsRead(s: string, n: nat)
    requires s != "" && AllDigits(s) && DigitsValue(s) == n
    ensures ParseU32(s) == if n <= U32_MAX then Some(n) else None
  {
    assert s[0] in s;
  }

  lemma ScoreReads(n: nat)
    ensures AllDigits(Score(n)) && ParseU32(Score(n)) == if n <= U32_MAX then Some(n) else None
  {
    var digits := Decimal(n);
    DecimalValue(n);
    if n < 10 {
      ZeroFirst(digits);
      ZeroFirst("0" + digits);
      assert Score(n) == "0" + ("0" + digits);
    } else if n < 100 {
      ZeroFirst(digits);
    } else {
      assert Score(n) == digits;
    }
    DigitsRead(Score(n), n);
  }

  lemma {:induction false} HexIsPlain(s: string)
    requires AllHex(s)
    ensures NoWhite(s) && NUL !in s
  {
    if s != "" {
      HexIsPlain(s[1..]);
      assert s == [s[0]] + s[1..];
    }
  }

  lemma OctalIsPlain(s: string)
    requires AllOctal(s)
    ensures NoWhite(s) && NoWhite(":" + s) && NUL !in s && NUL !in ":" + s
  {
    forall c | c in ":" + s ensures !IsWhite(c) && c != NUL {
      assert c == ':' || c in s;
    }
  }

  predicate ArePlain(words: seq<string>) {
    words == [] || (words[0] != "" && NoWhite(words[0]) && NUL !in words[0] && ArePlain(words[1..]))
  }

  lemma {:induction false} PlainAreWords(words: seq<string>)
    requires ArePlain(words)
    ensures AreWords(words)
  {
    if words != [] {
      PlainAreWords(words[1..]);
    }
  }

  lemma {:induction false} JoinedIsField(words: seq<string>)
    requires ArePlain(words) && words != []
    ensures IsField(Join(words))
  {
    if |words| > 1 {
      JoinedIsField(words[1..]);
    }
  }

  lemma TokenFits(raw: Raw)
    requires !IsWhite(raw.status) && raw.status != NUL
    ensures NoWhite(Token(raw)) && Token(raw) != "" && NUL !in Token(raw) && Token(raw)[0] == raw.status
    ensures HasTwoPaths(raw.status) ==> Token(raw)[1..] == Score(raw.score)
  {
    ScoreReads(raw.score);
    forall c | c in Token(raw) ensures !IsWhite(c) && c != NUL {
      assert c == raw.status || c in Score(raw.score);
    }
  }

  /** The words of the header can be told apart again. */
  predicate HeaderIsPlain(raw: Raw) {
    && raw.oldObject != "" && NoWhite(raw.oldObject) && NUL !in raw.oldObject
    && raw.newObject != "" && NoWhite(raw.newObject) && NUL !in raw.newObject
    && !IsWhite(raw.status) && raw.status != NUL
  }

  predicate HeaderFits(raw: Raw) {
    && raw.oldMode <= 0xFFFF_FFFF && raw.newMode <= 0xFFFF_FFFF
    && ObjectFits(raw.oldObject) && ObjectFits(raw.newObject)
    && !IsWhite(raw.status) && raw.status != NUL
  }

  lemma FittingIsPlain(raw: Raw)
    requires HeaderFits(raw)
    ensures HeaderIsPlain(raw) && IsObject(raw.oldObject) && IsObject(raw.newObject)
  {
    HexOnly(raw.oldObject);
    HexOnly(raw.newObject);
    HexIsPlain(raw.oldObject);
    HexIsPlain(raw.newObject);
  }

  lemma PlainHeader(raw: Raw)
    requires HeaderIsPlain(raw)
    ensures ArePlain(HeaderWords(raw))
  {
    var words := HeaderWords(raw);
    OctalIsPlain(Octal(raw.oldMode, 6));
    OctalIsPlain(Octal(raw.newMode, 6));
    TokenFits(raw);
    assert ArePlain(words[4..]) by {
      assert words[4..][0] == words[4] && words[4..][1..] == [];
    }
    assert ArePlain(words[3..]) by {
      assert words[3..][0] == words[3] && words[3..][1..] == words[4..];
    }
    assert ArePlain(words[2..]) by {
      assert words[2..][0] == words[2] && words[2..][1..] == words[3..];
    }
    assert ArePlain(words[1..]) by {
      assert words[1..][0] == words[1] && words[1..][1..] == words[2..];
    }
  }

  lemma HeaderSplits(raw: Raw)
    requires HeaderIsPlain(raw)
    ensures Split(Header(raw)) == HeaderWords(raw) && IsField(Header(raw))
  {
    PlainHeader(raw);
    PlainAreWords(HeaderWords(raw));
    JoinedWords(HeaderWords(raw));
    JoinedIsField(HeaderWords(raw));
  }

  lemma ObjectReads(word: string)
    ensures IsObject(word) <==> ObjectFits(word)
  {
    HexOnly(word);
  }

  lemma WordsRead(raw: Raw)
    requires HeaderIsPlain(raw)
    ensures RemoteWords(HeaderWords(raw)).Ok? <==> HeaderFits(raw)
    ensures HeaderFits(raw) ==>
              RemoteWords(HeaderWords(raw)) ==
              Ok(RemoteHeader(raw.oldMode, raw.newMode, ObjectOf(raw.oldObject), ObjectOf(raw.newObject), Token(raw)))
  {
    var words := HeaderWords(raw);
    ModeReads(raw.oldMode);
    ModeReads(raw.newMode);
    ObjectReads(raw.oldObject);
    ObjectReads(raw.newObject);
    TokenFits(raw);
    assert |words| == 5 && words[2] == raw.oldObject && words[3] == raw.newObject && words[4] == Token(raw);
  }

  lemma HeaderReads(raw: Raw, rules: Rules)
    requires HeaderFits(raw) && rules.utf8(Header(raw))
    ensures ParseRemoteHeader(Header(raw), rules) ==
            Ok(RemoteHeader(raw.oldMode, raw.newMode, ObjectOf(raw.oldObject), ObjectOf(raw.newObject), Token(raw)))
    ensures IsField(Header(raw))
  {
    FittingIsPlain(raw);
    HeaderSplits(raw);
    WordsRead(raw);
  }

  lemma BodyReads(raw: Raw, fields: seq<string>, rules: Rules)
    requires RawFits(raw, rules) && RawFields(raw) <= fields
    ensures var two := HasTwoPaths(raw.status);
            var kind := RemoteStatus(raw.status, raw.oldMode, raw.newMode);
            kind.Some? &&
            RemoteBody(RemoteHeader(raw.oldMode, raw.newMode, ObjectOf(raw.oldObject), ObjectOf(raw.newObject), Token(raw)),
                       fields, rules) ==
            Ok((RemoteEntry(if two then raw.second else raw.first, if two then Some(raw.first) else None, kind.value,
                            if two then Some(raw.score) else None, raw.oldMode, raw.newMode, ObjectOf(raw.oldObject),
                            ObjectOf(raw.newObject)), |RawFields(raw)|))
  {
    TokenFits(raw);
    ScoreReads(raw.score);
    LettersOfKinds(raw.status, raw.oldMode, raw.newMode);
    assert fields[1] == raw.first && (HasTwoPaths(raw.status) ==> fields[2] == raw.second);
  }

  lemma EntrySays(raw: Raw, e: RemoteEntry)
    requires var two := HasTwoPaths(raw.status);
             e.path == (if two then raw.second else raw.first) && e.oldPath == (if two then Some(raw.first) else None) &&
             e.similarity == if two then Some(raw.score) else None
    requires RemoteStatus(raw.status, raw.oldMode, raw.newMode) == Some(e.status)
    requires e.oldMode == raw.oldMode && e.newMode == raw.newMode
    requires e.oldObject == ObjectOf(raw.oldObject) && e.newObject == ObjectOf(raw.newObject)
    ensures RemoteSays(raw, e)
  {
    ObjectIs(raw.oldObject);
    ObjectIs(raw.newObject);
  }

  lemma RemoteStepReads(raw: Raw, fields: seq<string>, rules: Rules)
    requires RawFits(raw, rules) && RawFields(raw) <= fields
    ensures RemoteStep(fields, rules).Ok? && RemoteStep(fields, rules).value.1 == |RawFields(raw)|
    ensures RemoteSays(raw, RemoteStep(fields, rules).value.0)
  {
    HeaderReads(raw, rules);
    BodyReads(raw, fields, rules);
    assert fields[0] == Header(raw);
    EntrySays(raw, RemoteStep(fields, rules).value.0);
  }

  lemma LocalBodyReads(raw: Raw, fields: seq<string>, rules: Rules)
    requires RawFits(raw, rules) && Faithful(rules) && RawFields(raw) <= fields
    ensures var r := LocalBody(LocalHeader(raw.oldMode, raw.newMode, raw.status), fields, rules);
            r.Ok? && r.value.1 == |RawFields(raw)| && LocalSays(raw, r.value.0)
  {
    LettersOfKinds(raw.status, raw.oldMode, raw.newMode);
    assert fields[1] == raw.first && (HasTwoPaths(raw.status) ==> fields[2] == raw.second);
    assert rules.lossy(raw.first) == raw.first && (HasTwoPaths(raw.status) ==> rules.lossy(raw.second) == raw.second);
  }

  lemma LocalStepReads(raw: Raw, fields: seq<string>, rules: Rules)
    requires RawFits(raw, rules) && Faithful(rules) && RawFields(raw) <= fields
    ensures LocalStep(fields, rules).Ok? && LocalStep(fields, rules).value.1 == |RawFields(raw)|
    ensures LocalSays(raw, LocalStep(fields, rules).value.0)
  {
    HeaderReads(raw, rules);
    TokenFits(raw);
    assert ParseRemoteHeader(Header(raw), rules).Ok?;
    HeadersAgree(Header(raw), rules);
    LocalBodyReads(raw, fields, rules);
    assert fields[0] == Header(raw);
  }

  predicate AllFit(raws: seq<Raw>, rules: Rules) {
    raws == [] || (RawFits(raws[0], rules) && AllFit(raws[1..], rules))
  }

  predicate AllRemote(raws: seq<Raw>, entries: seq<RemoteEntry>) {
    |entries| == |raws| && forall k | 0 <= k < |raws| :: RemoteSays(raws[k], entries[k])
  }

  predicate AllLocal(raws: seq<Raw>, entries: seq<LocalEntry>) {
    |entries| == |raws| && forall k | 0 <= k < |raws| :: LocalSays(raws[k], entries[k])
  }

  lemma RemoteCons(raws: seq<Raw>, first: RemoteEntry, rest: seq<RemoteEntry>)
    requires raws != [] && RemoteSays(raws[0], first) && AllRemote(raws[1..], rest)
    ensures AllRemote(raws, [first] + rest)
  {
    forall k | 0 <= k < |raws| ensures RemoteSays(raws[k], ([first] + rest)[k]) {
      if k > 0 {
        assert raws[k] == raws[1..][k - 1] && ([first] + rest)[k] == rest[k - 1];
      }
    }
  }

  lemma LocalCons(raws: seq<Raw>, first: LocalEntry, rest: seq<LocalEntry>)
    requires raws != [] && LocalSays(raws[0], first) && AllLocal(raws[1..], rest)
    ensures AllLocal(raws, [first] + rest)
  {
    forall k | 0 <= k < |raws| ensures LocalSays(raws[k], ([first] + rest)[k]) {
      if k > 0 {
        assert raws[k] == raws[1..][k - 1] && ([first] + rest)[k] == rest[k - 1];
      }
    }
  }

  lemma {:induction false} FieldsRead(raws: seq<Raw>, rules: Rules)
    requires AllFit(raws, rules) && Faithful(rules)
    ensures ParseRemote(AllFields(raws), rules).Ok? && AllRemote(raws, ParseRemote(AllFields(raws), rules).value)
    ensures ParseLocal(AllFields(raws), rules).Ok? && AllLocal(raws, ParseLocal(AllFields(raws), rules).value)
  {
    if raws != [] {
      var raw, fields := raws[0], AllFields(raws);
      assert RawFields(raw) <= fields && fields[|RawFields(raw)|..] == AllFields(raws[1..]);
      RemoteStepReads(raw, fields, rules);
      LocalStepReads(raw, fields, rules);
      FieldsRead(raws[1..], rules);
      RemoteCons(raws, RemoteStep(fields, rules).value.0, ParseRemote(AllFields(raws[1..]), rules).value);
      LocalCons(raws, LocalStep(fields, rules).value.0, ParseLocal(AllFields(raws[1..]), rules).value);
    }
  }

  /** An octal number as Rust reads it. */
  predicate IsOctalNumber(s: string) {
    var body := if s != "" && s[0] == '+' then s[1..] else s;
    body != "" && forall i | 0 <= i < |body| :: '0' <= body[i] <= '7'
  }

  /** A header that the companion accepts has five words, the modes in octal and the first one after a colon. */
  lemma AcceptedHeader(words: seq<string>)
    requires RemoteWords(words).Ok?
    ensures |words| == 5 && words[0] != "" && words[0][0] == ':'
    ensures IsOctalNumber(words[0][1..]) && IsOctalNumber(words[1])
    ensures ObjectFits(words[2]) && ObjectFits(words[3]) && words[4] != ""
  {
    assert ":"[0] == ':';
    HexOnly(words[2]);
    HexOnly(words[3]);
    forall mode | ParseOctal(mode).Some? ensures IsOctalNumber(mode) {
      var body := if mode != "" && mode[0] == '+' then mode[1..] else mode;
      assert forall i | 0 <= i < |body| :: body[i] in body;
    }
  }

  /* ---- Fields of what is printed ---- */

  lemma FieldFirst(field: string, rest: string)
    requires IsField(field)
    ensures Fields(field + ([NUL] + rest)) == [field] + Fields(rest)
  {
    var s := field + ([NUL] + rest);
    assert field[0] in field && s[0] == field[0];
    assert SkipNul(s) == s;
    FieldEnds(field, rest);
    assert s[..|field|] == field && s[|field|..] == [NUL] + rest;
    assert ([NUL] + rest)[1..] == rest;
    assert SkipNul([NUL] + rest) == SkipNul(rest);
  }

  lemma {:induction false} FieldEnds(field: string, rest: string)
    requires NUL !in field
    ensures FieldLength(field + ([NUL] + rest)) == |field|
  {
    var s := field + ([NUL] + rest);
    if field != "" {
      assert s[0] == field[0] && field[0] in field && s[1..] == field[1..] + ([NUL] + rest);
      FieldEnds(field[1..], rest);
    }
  }

  predicate AllFieldsFit(fields: seq<string>) {
    fields == [] || (IsField(fields[0]) && AllFieldsFit(fields[1..]))
  }

  lemma {:induction false} TerminatedFields(fields: seq<string>)
    requires AllFieldsFit(fields)
    ensures Fields(Terminated(fields)) == fields
  {
    if fields != [] {
      FieldFirst(fields[0], Terminated(fields[1..]));
      TerminatedFields(fields[1..]);
      assert [fields[0]] + fields[1..] == fields;
    }
  }

  lemma MoreFieldsFit(field: string, rest: seq<string>)
    requires IsField(field) && AllFieldsFit(rest)
    ensures AllFieldsFit([field] + rest)
  {
    assert ([field] + rest)[1..] == rest;
  }

  lemma RawFieldsFit(raw: Raw, rest: seq<string>)
    requires IsField(Header(raw)) && IsField(raw.first) && (HasTwoPaths(raw.status) ==>
            IsField(raw.second)) && AllFieldsFit(rest)
    ensures AllFieldsFit(RawFields(raw) + rest)
  {
    var paths := (if HasTwoPaths(raw.status) then [raw.second] else []) + rest;
    if HasTwoPaths(raw.status) {
      MoreFieldsFit(raw.second, rest);
    } else {
      assert paths == rest;
    }
    MoreFieldsFit(raw.first, paths);
    MoreFieldsFit(Header(raw), [raw.first] + paths);
    assert RawFields(raw) + rest == [Header(raw)] + ([raw.first] + paths);
  }

  lemma {:induction false} PrintedFieldsFit(raws: seq<Raw>, rules: Rules)
    requires AllFit(raws, rules)
    ensures AllFieldsFit(AllFields(raws))
  {
    if raws != [] {
      HeaderReads(raws[0], rules);
      PrintedFieldsFit(raws[1..], rules);
      RawFieldsFit(raws[0], AllFields(raws[1..]));
    }
  }

  /** Both parsers invert the printer: entry for entry, the companion reads back paths, modes, objects, similarity and what
      the letter stands for, and the local parser the same but for objects and similarity. */
  lemma ManifestRoundTrips(raws: seq<Raw>, rules: Rules)
    requires AllFit(raws, rules) && Faithful(rules)
    ensures ParseRemote(Fields(PrintManifest(raws)), rules).Ok? && ParseLocal(Fields(PrintManifest(raws)), rules).Ok?
    ensures var remote := ParseRemote(Fields(PrintManifest(raws)), rules).value;
            |remote| == |raws| && forall k | 0 <= k < |raws| :: RemoteSays(raws[k], remote[k])
    ensures var local := ParseLocal(Fields(PrintManifest(raws)), rules).value;
            |local| == |raws| && forall k | 0 <= k < |raws| :: LocalSays(raws[k], local[k])
  {
    PrintedFieldsFit(raws, rules);
    TerminatedFields(AllFields(raws));
    FieldsRead(raws, rules);
  }

  /** What the companion asks of an entry. */
  predicate Acceptable(raw: Raw, rules: Rules) {
    && raw.oldMode <= 0xFFFF_FFFF && raw.newMode <= 0xFFFF_FFFF
    && ObjectFits(raw.oldObject) && ObjectFits(raw.newObject)
    && (raw.status in "ACDMRT" || raw.oldMode == 0xE000 || raw.newMode == 0xE000)
    && rules.utf8(raw.first) && rules.relative(raw.first)
    && (raw.status == 'R' || raw.status == 'C' ==>
          raw.score <= 100 && rules.utf8(raw.second) && rules.relative(raw.second))
  }

  lemma BodyAcceptedWhen(raw: Raw, rules: Rules)
    requires !IsWhite(raw.status) && raw.status != NUL
    ensures var r := RemoteBody(RemoteHeader(raw.oldMode, raw.newMode, ObjectOf(raw.oldObject), ObjectOf(raw.newObject),
                Token(raw)), RawFields(raw), rules);
            && (HeaderFits(raw) ==> (r.Ok? <==> Acceptable(raw, rules)))
            && (r.Ok? ==> r.value.1 == |RawFields(raw)|)
  {
    TokenFits(raw);
    ScoreReads(raw.score);
    LettersOfKinds(raw.status, raw.oldMode, raw.newMode);
    var fields := RawFields(raw);
    assert fields[1] == raw.first && (HasTwoPaths(raw.status) ==> fields[2] == raw.second);
  }

  /** Of the entries that can be printed, the companion accepts exactly the acceptable ones. */
  lemma EntryAcceptedWhen(raw: Raw, rules: Rules)
    requires HeaderIsPlain(raw) && rules.utf8(Header(raw))
    ensures ParseRemote(RawFields(raw), rules).Ok? <==> Acceptable(raw, rules)
  {
    var fields := RawFields(raw);
    HeaderSplits(raw);
    WordsRead(raw);
    BodyAcceptedWhen(raw, rules);
    assert fields[0] == Header(raw);
    if RemoteStep(fields, rules).Ok? {
      assert fields[RemoteStep(fields, rules).value.1..] == [] && ParseRemote([], rules) == Ok([]);
    }
  }

  /** A submodule whose letter is unknown is accepted by the companion and refused by the local parser. */
  lemma UnknownLetterOfSubmodule(raw: Raw, rules: Rules)
    requires HeaderFits(raw) && rules.utf8(Header(raw)) && PathFits(raw.first, rules)
    requires IsGitlink(raw.oldMode, raw.newMode) && raw.status !in "ACDMRT"
    ensures ParseRemote(RawFields(raw), rules).Ok? && ParseLocal(RawFields(raw), rules) == Err(Unsupported)
  {
    var fields := RawFields(raw);
    var header := RemoteHeader(raw.oldMode, raw.newMode, ObjectOf(raw.oldObject), ObjectOf(raw.newObject), Token(raw));
    HeaderReads(raw, rules);
    TokenFits(raw);
    LettersOfKinds(raw.status, raw.oldMode, raw.newMode);
    HeadersAgree(Header(raw), rules);
    assert fields == [Header(raw), raw.first] && fields[2..] == [];
    assert RemoteBody(header, fields, rules).Ok?;
    assert ParseRemote([], rules) == Ok([]);
  }

  lemma UnknownLetterExample()
    ensures var raw := Raw(GITLINK, GITLINK, "abcd", "abcd", 'X', 0, "p", "");
            var rules := Rules(_ => true, s => s, _ => true);
            ParseRemote(RawFields(raw), rules).Ok? && ParseLocal(RawFields(raw), rules).Err?
  {
    var raw, rules := Raw(GITLINK, GITLINK, "abcd", "abcd", 'X', 0, "p", ""), Rules(_ => true, s => s, _ => true);
    assert ObjectFits("abcd");
    assert HeaderFits(raw);
    UnknownLetterOfSubmodule(raw, rules);
  }
}
