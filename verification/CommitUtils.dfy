/** Change-Id injection (agent-worker/src/commitUtils.ts). */
module CommitUtils {
  import opened Seqs
  import opened Text
  import opened CommitMessages
  import opened CommitCleanup

  // ---------------------------------------------------------------------------
  // Subject and body of a message
  // ---------------------------------------------------------------------------

  /** `%b` with leading whitespace removed: what follows the first blank line after the subject. */
  datatype Cut = Leading | Subject(blank: bool) | Between | Body(text: string)

  function CutStep(st: Cut, c: char): Cut {
    match st
    case Leading => if IsWhitespace(c) then Leading else Subject(false)
    case Subject(blank) =>
      if c == '\n' then (if blank then Between else Subject(true)) else Subject(blank && IsGitSpace(c))
    case Between => if IsWhitespace(c) then Between else Body([c])
    case Body(text) => Body(text + [c])
  }

  function CutFrom(st: Cut, s: string): Cut {
    if s == "" then st else CutStep(CutFrom(st, s[..|s| - 1]), s[|s| - 1])
  }

  /** The `body` field of a collected commit. */
  function BodyOf(message: string): string {
    match CutFrom(Leading, message)
    case Body(text) => TrimEnd(text)
    case _ => ""
  }

  /** The `changeId` field of a collected commit; none for the empty string. */
  function ChangeIdOf(message: string): Option<string> {
    ChangeIdIn(BodyOf(message))
  }

  // ---------------------------------------------------------------------------
  // /\n\n[A-Za-z][A-Za-z0-9-]*: / anywhere in the message
  // ---------------------------------------------------------------------------

  datatype Trailer = NoBreak | OneBreak | TwoBreaks | InToken | AfterColon | Seen

  predicate IsLetter(c: char) {
    'A' <= c <= 'Z' || 'a' <= c <= 'z'
  }

  function TrailerStep(st: Trailer, c: char): Trailer {
    if st.Seen? then Seen
    else if c == '\n' then (if st.OneBreak? || st.TwoBreaks? then TwoBreaks else OneBreak)
    else if st.TwoBreaks? && IsLetter(c) then InToken
    else if st.InToken? && (IsLetter(c) || '0' <= c <= '9' || c == '-') then InToken
    else if st.InToken? && c == ':' then AfterColon
    else if st.AfterColon? && c == ' ' then Seen
    else NoBreak
  }

  function TrailerFrom(st: Trailer, s: string): Trailer {
    if s == "" then st else TrailerStep(TrailerFrom(st, s[..|s| - 1]), s[|s| - 1])
  }

  predicate HasTrailerBlock(message: string) {
    TrailerFrom(NoBreak, message).Seen?
  }

  // ---------------------------------------------------------------------------
  // Rewriting one message
  // ---------------------------------------------------------------------------

  function WithLine(message: string, line: string): string {
    message + (if HasTrailerBlock(message) then "\n" else "\n\n") + line
  }

  predicate EndsWith(s: string, f: string) {
    f == "" || (s != "" && s[|s| - 1] == f[|f| - 1] && EndsWith(s[..|s| - 1], f[..|f| - 1]))
  }

  predicate Includes(s: string, f: string) {
    EndsWith(s, f) || (s != "" && Includes(s[..|s| - 1], f))
  }

  /** The message once it has its footer. */
  function Footed(current: string, footer: string): string {
    if footer != "" && !Includes(current, footer) then WithLine(current, footer) else current
  }

  /** The message the amend is given: the current one, then the footer if missing, then the Change-Id if one is wanted. */
  function NewMessage(current: string, footer: string, desired: string): string {
    if desired != "" then WithLine(Footed(current, footer), "Change-Id: " + desired) else Footed(current, footer)
  }

  /** The stored message afterwards; git cleans up what the amend is given. */
  function Amended(message: string, footer: string, desired: string): string {
    var current := Trim(message);
    var amended := NewMessage(current, footer, desired);
    if amended != current then Cleaned(amended) else message
  }

  // ---------------------------------------------------------------------------
  // Which Change-Id a commit gets
  // ---------------------------------------------------------------------------

  /** A SHA-1 digest in hexadecimal. */
  datatype Digest = Digest(hex: string)

  /** A repository's known ids: one for commit 0, or one per commit index. */
  datatype Prior = Flat(id: string) | Indexed(ids: map<string, string>)

  datatype Options = Options(
    existingChangeId: Option<string>, repoKeyForLookup: Option<string>,
    perRepoChangeIds: Option<map<string, Prior>>, ticketFooterLine: Option<string>)

  function DeriveInput(taskId: string, repoKey: string, index: nat, subject: string): string {
    "ve:" + taskId + ":" + repoKey + ":" + Decimal(index) + ":" + subject
  }

  function DeriveChangeId(sha1: string -> Digest, taskId: string, repoKey: string, index: nat, subject: string): string {
    "I" + sha1(DeriveInput(taskId, repoKey, index, subject)).hex
  }

  function ResolveExistingChangeId(perRepoChangeIds: map<string, Prior>, repoKey: string, commitIndex: nat): Option<string> {
    if repoKey !in perRepoChangeIds then None
    else
      match perRepoChangeIds[repoKey]
      case Flat(id) => if commitIndex == 0 && id != "" then Some(id) else None
      case Indexed(ids) => if Decimal(commitIndex) in ids then Some(ids[Decimal(commitIndex)]) else None
  }

  datatype Commit = Commit(repoKey: string, subject: string, message: string)

  function Truthy(s: Option<string>): bool {
    s.Some? && s.value != ""
  }

  /** `perIndexId ?? legacyId ?? derived`. */
  function DesiredId(sha1: string -> Digest, taskId: string, options: Options, c: Commit, i: nat): string {
    var perIndex :=
      if options.perRepoChangeIds.Some? && Truthy(options.repoKeyForLookup)
      then ResolveExistingChangeId(options.perRepoChangeIds.value, options.repoKeyForLookup.value, i) else None;
    if perIndex.Some? then perIndex.value
    else if i == 0 && Truthy(options.existingChangeId) then options.existingChangeId.value
    else DeriveChangeId(sha1, taskId, c.repoKey, i, c.subject)
  }

  /** The id written into commit `i`: none (empty) when it carries one already. */
  function WantedId(sha1: string -> Digest, taskId: string, options: Options, c: Commit, i: nat): string {
    if ChangeIdOf(c.message).Some? then "" else DesiredId(sha1, taskId, options, c, i)
  }

  function Footer(options: Options): string {
    if options.ticketFooterLine.Some? then options.ticketFooterLine.value else ""
  }

  predicate NeedsRewrite(c: Commit, options: Options) {
    ChangeIdOf(c.message).None?
    || (options.ticketFooterLine.Some? && !Includes(BodyOf(c.message), options.ticketFooterLine.value))
  }

  /** The key of a commit collected without a repository map, as the rewritten ones are. */
  const DEFAULT_REPO_KEY := "superproject"

  /** The first `n` commits rewritten and collected anew. */
  function Rewritten(sha1: string -> Digest, taskId: string, options: Options, commits: seq<Commit>, n: nat): (r: seq<Commit>)
    requires n <= |commits|
    ensures |r| == n
  {
    if n == 0 then []
    else
      var c := commits[n - 1];
      Rewritten(sha1, taskId, options, commits, n - 1)
      + [c.(repoKey := DEFAULT_REPO_KEY, message := Amended(c.message, Footer(options), WantedId(sha1, taskId, options, c, n - 1)))]
  }

  function Injected(sha1: string -> Digest, taskId: string, options: Options, commits: seq<Commit>): (r: seq<Commit>)
    ensures |r| == |commits|
  {
    if exists i :: 0 <= i < |commits| && NeedsRewrite(commits[i], options)
    then Rewritten(sha1, taskId, options, commits, |commits|) else commits
  }

  /** One stop of the interactive rebase. */
  method AmendMessage(message: string, footer: string, desired: string) returns (stored: string)
    ensures stored == Amended(message, footer, desired)
  {
    stored := message;
    if desired != "" || footer != "" {
      var current := Trim(message);
      var newMsg := current;
      if footer != "" && !Includes(newMsg, footer) {
        newMsg := WithLine(newMsg, footer);
      }
      if desired != "" {
        newMsg := WithLine(newMsg, "Change-Id: " + desired);
      }
      if newMsg != current {
        stored := Cleaned(newMsg);
      }
    }
  }

  /** `rebaseStuck` is whether a rebase is still in progress after the loop, so that it is aborted. */
  method InjectChangeIds(sha1: string -> Digest, taskId: string, options: Options, commits: seq<Commit>, rebaseStuck: bool)
    returns (result: seq<Commit>)
    ensures result == if rebaseStuck then commits else Injected(sha1, taskId, options, commits)
  {
    hide Amended, DesiredId, NeedsRewrite, ChangeIdOf, Footer;
    var needsRewrite := exists i :: 0 <= i < |commits| && NeedsRewrite(commits[i], options);
    if !needsRewrite {
      return commits;
    }
    var changeIdByIndex: map<nat, string> := map[];
    for i := 0 to |commits|
      invariant forall k: nat :: k in changeIdByIndex <==> k < i && ChangeIdOf(commits[k].message).None?
      invariant forall k: nat | k in changeIdByIndex :: k < |commits| && changeIdByIndex[k] == DesiredId(sha1, taskId, options, commits[k], k)
    {
      if ChangeIdOf(commits[i].message).None? {
        changeIdByIndex := changeIdByIndex[i := DesiredId(sha1, taskId, options, commits[i], i)];
      }
    }
    var footer := Footer(options);
    result := [];
    for i := 0 to |commits|
      invariant result == Rewritten(sha1, taskId, options, commits, i)
    {
      var desired := if i in changeIdByIndex then changeIdByIndex[i] else "";
      var message := AmendMessage(commits[i].message, footer, desired);
      result := result + [commits[i].(repoKey := DEFAULT_REPO_KEY, message := message)];
    }
    if rebaseStuck {
      result := commits;
    }
  }
}
