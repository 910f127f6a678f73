/** Injection of a whole range, written out (injectChangeIds in agent-worker/src/commitUtils.ts). */
module CommitInjection {
  import opened Seqs
  import opened Text
  import opened CommitMessages
  import opened CommitCleanup
  import opened CommitUtils
  import opened CommitUtilsProperties
  import opened CommitFooters
  import opened CommitTrailers

  /** The id an earlier run recorded: a single one is for the first commit only, an indexed one for the commit at its index. */
  lemma RecordedExactly(options: Options, i: nat, id: string)
    ensures RecordedId(options, i) == Some(id)
       <==> exists key, priors :: options.repoKeyForLookup == Some(key) && key != "" && options.perRepoChangeIds == Some(priors)
              && key in priors
              && ((i == 0 && id != "" && priors[key] == Flat(id))
                  || exists ids :: priors[key] == Indexed(ids) && Decimal(i) in ids && ids[Decimal(i)] == id)
  {
    if RecordedId(options, i) == Some(id) {
      var key, priors := options.repoKeyForLookup.value, options.perRepoChangeIds.value;
      assert options.repoKeyForLookup == Some(key) && options.perRepoChangeIds == Some(priors) && key in priors;
      assert priors[key].Indexed? ==> priors[key] == Indexed(priors[key].ids);
    }
  }

  /**
   * The id wanted for a commit: none when it has one; else the recorded one,
   * even an empty one; else, for the first commit, the task's earlier id; else
   * the digest of task, repository, index and subject.
   */
  lemma WantedExactly(sha1: string -> Digest, taskId: string, options: Options, c: Commit, i: nat)
    ensures var wanted, recorded := WantedId(sha1, taskId, options, c, i), RecordedId(options, i);
            if ChangeIdIn(BodyOf(c.message)).Some? then wanted == ""
            else if recorded.Some? then wanted == recorded.value
            else if i == 0 && options.existingChangeId.Some? && options.existingChangeId.value != ""
              then wanted == options.existingChangeId.value
            else wanted == "I" + sha1("ve:" + taskId + ":" + c.repoKey + ":" + Decimal(i) + ":" + c.subject).hex
  {
    hide ResolveExistingChangeId, BodyOf;
  }

  /** A range is rewritten when some commit has no Change-Id, or a footer line is given that some body lacks. */
  ghost predicate MustRewrite(options: Options, commits: seq<Commit>) {
    exists k :: 0 <= k < |commits|
      && (ChangeIdIn(BodyOf(commits[k].message)).None?
          || (options.ticketFooterLine.Some? && !exists a, b :: BodyOf(commits[k].message) == a + options.ticketFooterLine.value + b))
  }

  lemma RewritesExactly(options: Options, commits: seq<Commit>)
    ensures Rewrites(options, commits) <==> MustRewrite(options, commits)
  {
    hide BodyOf, Includes;
    forall k | 0 <= k < |commits|
      ensures NeedsRewrite(commits[k], options)
         <==> ChangeIdIn(BodyOf(commits[k].message)).None?
              || (options.ticketFooterLine.Some? && !exists a, b :: BodyOf(commits[k].message) == a + options.ticketFooterLine.value + b)
    {
      if options.ticketFooterLine.Some? {
        IncludesExactly(BodyOf(commits[k].message), options.ticketFooterLine.value);
      }
    }
    hide NeedsRewrite, ChangeIdIn;
  }

  /**
   * Commit `i` after injection. In a range left alone it is what it was. In a
   * rewritten one it keeps its subject, loses its repository, and its message is
   * the cleaned old one, the footer if one is given and missing, and the id if
   * one is wanted, joined as `AmendedText` says; untouched if there is neither.
   */
  lemma InjectedInFull(sha1: string -> Digest, taskId: string, options: Options, commits: seq<Commit>, i: nat)
    requires i < |commits| && NotBlank(commits[i].message)
    requires options.ticketFooterLine.Some? ==> options.ticketFooterLine.value == "" || FooterLine(options.ticketFooterLine.value)
    ensures var c, after := commits[i], Injected(sha1, taskId, options, commits)[i];
            var footer := if options.ticketFooterLine.Some? then options.ticketFooterLine.value else "";
            var current, wanted := Trim(c.message), WantedId(sha1, taskId, options, c, i);
            var footed := WithFooter(current, footer);
            if !MustRewrite(options, commits) then after == c
            else after == Commit("superproject", c.subject,
                   if wanted != "" then Cleaned(footed) + Joint(footed) + Cleaned("Change-Id: " + wanted)
                   else if footed == current then c.message else Cleaned(footed))
  {
    var c, footer := commits[i], Footer(options);
    RewritesExactly(options, commits);
    InjectedShape(sha1, taskId, options, commits, i);
    AmendedText(c.message, footer, WantedId(sha1, taskId, options, c, i));
    hide Injected, Rewrites, MustRewrite, Amended, WantedId, WithFooter, Joint, Cleaned, Trim, NotBlank, FooterLine;
  }
}
