/** Which derived Change-Ids differ (deriveChangeId in agent-worker/src/commitUtils.ts). */
module DerivedChangeIds {
  import opened Seqs
  import opened Text
  import opened CommitUtils

  predicate NoColon(s: string) {
    Lacks(s, ':')
  }

  /** Texts without a colon, each followed by a colon, are told apart. */
  lemma SplitAtColon(a: string, s: string, b: string, t: string)
    requires a + ":" + s == b + ":" + t && NoColon(a) && NoColon(b)
    ensures a == b && s == t
  {
    SplitAtSeparator(a, s, b, t, ':');
  }

  ghost predicate Injective(sha1: string -> Digest) {
    forall x, y :: sha1(x) == sha1(y) ==> x == y
  }

  lemma SameIdSameInput(sha1: string -> Digest, x: string, y: string)
    requires Injective(sha1) && "I" + sha1(x).hex == "I" + sha1(y).hex
    ensures x == y
  {
    CancelPrefix("I", sha1(x).hex, sha1(y).hex);
    assert sha1(x) == sha1(y);
  }

  /** Two commits of one repository never get the same derived id, whatever their subjects. */
  lemma DerivedIdsDifferByIndex(sha1: string -> Digest, taskId: string, repoKey: string, i: nat, s: string, j: nat, t: string)
    requires Injective(sha1) && i != j
    ensures DeriveChangeId(sha1, taskId, repoKey, i, s) != DeriveChangeId(sha1, taskId, repoKey, j, t)
  {
    if DeriveChangeId(sha1, taskId, repoKey, i, s) == DeriveChangeId(sha1, taskId, repoKey, j, t) {
      SameIdSameInput(sha1, DeriveInput(taskId, repoKey, i, s), DeriveInput(taskId, repoKey, j, t));
      var p := "ve:" + taskId + ":" + repoKey + ":";
      AfterPrefix(p, Decimal(i), s, Decimal(j), t);
      SplitAtColon(Decimal(i), s, Decimal(j), t);
      DecimalInjective(i, j);
    }
  }

  lemma AfterPrefix(p: string, a: string, s: string, b: string, t: string)
    requires p + a + ":" + s == p + b + ":" + t
    ensures a + ":" + s == b + ":" + t
  {
    assert p + (a + ":" + s) == p + a + ":" + s && p + (b + ":" + t) == p + b + ":" + t;
    CancelPrefix(p, a + ":" + s, b + ":" + t);
  }

  // ---------------------------------------------------------------------------
  // Across repositories
  // ---------------------------------------------------------------------------

  /** `q` is `r`, a colon and a decimal number, and then ends or goes on with a colon. */
  ghost predicate Continues(q: string, r: string) {
    exists n, tail :: ContinuesWith(q, r, n, tail)
  }

  predicate ContinuesWith(q: string, r: string, n: nat, tail: string) {
    (tail == "" || tail[0] == ':') && q == r + ":" + Decimal(n) + tail
  }

  predicate Collide(sha1: string -> Digest, taskId: string, q: string, i: nat, s: string, r: string, j: nat, t: string) {
    DeriveChangeId(sha1, taskId, q, i, s) == DeriveChangeId(sha1, taskId, r, j, t)
  }

  lemma CollideMeans(sha1: string -> Digest, taskId: string, q: string, i: nat, s: string, r: string, j: nat, t: string)
    requires Injective(sha1)
    ensures Collide(sha1, taskId, q, i, s, r, j, t)
       <==> q + ":" + (Decimal(i) + ":" + s) == r + ":" + (Decimal(j) + ":" + t)
  {
    var p := "ve:" + taskId + ":";
    var x, y := Decimal(i) + ":" + s, Decimal(j) + ":" + t;
    InputParts(taskId, q, i, s);
    InputParts(taskId, r, j, t);
    hide Decimal, DeriveInput;
    if Collide(sha1, taskId, q, i, s, r, j, t) {
      SameIdSameInput(sha1, DeriveInput(taskId, q, i, s), DeriveInput(taskId, r, j, t));
      CancelPrefix(p, q + ":" + x, r + ":" + y);
    }
  }

  lemma InputParts(taskId: string, repoKey: string, index: nat, subject: string)
    ensures DeriveInput(taskId, repoKey, index, subject)
         == ("ve:" + taskId + ":") + (repoKey + ":" + (Decimal(index) + ":" + subject))
  {
    hide Decimal;
    var p, d := "ve:" + taskId + ":", Decimal(index);
    AppendAssociative(p, repoKey, ":");
    AppendAssociative(p, repoKey + ":", d + ":" + subject);
    AppendAssociative(p + repoKey + ":", d, ":");
    AppendAssociative(p + repoKey + ":", d + ":", subject);
  }

  /** A colliding key that is longer continues the other one. */
  lemma LongerContinues(q: string, x: string, r: string, j: nat, t: string)
    requires q + ":" + x == r + ":" + (Decimal(j) + ":" + t) && |q| > |r|
    ensures Continues(q, r)
  {
    var d := Decimal(j);
    var whole := q + ":" + x;
    AppendAssociative(q, ":", x);
    AppendAssociative(r, ":", d + ":" + t);
    PrefixOf(q, ":" + x, r, ":" + (d + ":" + t));
    var rest := q[|r| + 1..];
    assert q == r + ":" + rest by {
      assert whole[|r|] == ':';
      assert q[|r|] == whole[|r|];
    }
    assert rest + ":" + x == d + ":" + t by {
      AppendAssociative(r + ":", rest, ":");
      AppendAssociative(r + ":", rest + ":", x);
      CancelPrefix(r + ":", rest + ":" + x, d + ":" + t);
    }
    StartsWithNumber(rest, x, d, t);
    var tail := rest[|d|..];
    AppendAssociative(r + ":", d, tail);
    assert ContinuesWith(q, r, j, tail);
  }

  lemma PrefixOf(a: string, x: string, b: string, y: string)
    requires a + x == b + y && |a| > |b|
    ensures a[..|b|] == b
  {
    assert (a + x)[..|b|] == a[..|b|];
    assert (b + y)[..|b|] == b;
  }

  lemma StartsWithNumber(rest: string, x: string, d: string, t: string)
    requires rest + ":" + x == d + ":" + t && NoColon(d)
    ensures |d| <= |rest| && rest == d + rest[|d|..] && (rest[|d|..] == "" || rest[|d|..][0] == ':')
  {
    var whole := rest + ":" + x;
    SeparatorAfter(d, ':', t);
    SeparatorAfter(rest, ':', x);
    assert forall k | 0 <= k < |d| :: whole[k] == d[k] != ':';
    assert |d| <= |rest|;
    assert rest[..|d|] == d;
  }

  /** A key that continues another one collides with it. */
  lemma ContinuingCollides(sha1: string -> Digest, taskId: string, q: string, r: string)
    requires Injective(sha1) && Continues(q, r)
    ensures exists i, s, j, t :: Collide(sha1, taskId, q, i, s, r, j, t)
  {
    var n, tail :| ContinuesWith(q, r, n, tail);
    var d, z := Decimal(n), Decimal(0) + ":" + "";
    var t := if tail == "" then z else tail[1..] + ":" + z;
    assert tail + ":" + z == ":" + t by {
      if tail != "" {
        assert tail == ":" + tail[1..];
        AppendAssociative(":", tail[1..], ":");
        AppendAssociative(":", tail[1..] + ":", z);
      }
    }
    hide Decimal;
    assert q + ":" + z == r + ":" + (d + ":" + t) by {
      AppendAssociative(r + ":" + d, tail, ":");
      AppendAssociative(r + ":" + d, tail + ":", z);
      AppendAssociative(r + ":" + d, ":", t);
      AppendAssociative(r + ":", d, ":" + t);
      AppendAssociative(d, ":", t);
    }
    CollideMeans(sha1, taskId, q, 0, "", r, n, t);
    assert Collide(sha1, taskId, q, 0, "", r, n, t);
  }

  /** Two repositories can share a derived id exactly when one key continues the other with a number. */
  lemma RepositoriesCollideExactly(sha1: string -> Digest, taskId: string, q: string, r: string)
    requires Injective(sha1) && q != r
    ensures (exists i, s, j, t :: Collide(sha1, taskId, q, i, s, r, j, t)) <==> Continues(q, r) || Continues(r, q)
  {
    if i, s, j, t :| Collide(sha1, taskId, q, i, s, r, j, t) {
      CollideMeans(sha1, taskId, q, i, s, r, j, t);
      if |q| > |r| {
        LongerContinues(q, Decimal(i) + ":" + s, r, j, t);
      } else if |q| < |r| {
        LongerContinues(r, Decimal(j) + ":" + t, q, i, s);
      } else {
        SameLength(q, Decimal(i) + ":" + s, r, Decimal(j) + ":" + t);
      }
    }
    if Continues(q, r) {
      ContinuingCollides(sha1, taskId, q, r);
    }
    if Continues(r, q) {
      ContinuingCollides(sha1, taskId, r, q);
      var i, s, j, t :| Collide(sha1, taskId, r, i, s, q, j, t);
      assert Collide(sha1, taskId, q, j, t, r, i, s);
    }
  }

  lemma SameLength(q: string, x: string, r: string, y: string)
    requires q + ":" + x == r + ":" + y && |q| == |r|
    ensures q == r
  {
    assert (q + ":" + x)[..|q|] == q && (r + ":" + y)[..|r|] == r;
  }

  /** In particular keys that hold no colon never do. */
  lemma PlainKeysDiffer(sha1: string -> Digest, taskId: string, q: string, i: nat, s: string, r: string, j: nat, t: string)
    requires Injective(sha1) && NoColon(q) && NoColon(r)
    ensures Collide(sha1, taskId, q, i, s, r, j, t) <==> q == r && i == j && s == t
  {
    if Collide(sha1, taskId, q, i, s, r, j, t) {
      CollideMeans(sha1, taskId, q, i, s, r, j, t);
      SplitAtColon(q, Decimal(i) + ":" + s, r, Decimal(j) + ":" + t);
      SplitAtColon(Decimal(i), s, Decimal(j), t);
      DecimalInjective(i, j);
    }
  }

  /** A task with the repositories `a` and `a:0`: commit 1 of one and commit 0 of the other share an id. */
  lemma ColonInRepoKeyCollides(sha1: string -> Digest, taskId: string)
    ensures DeriveChangeId(sha1, taskId, "a:" + Decimal(0), 1, "s") == DeriveChangeId(sha1, taskId, "a", 0, Decimal(1) + ":s")
  {
    var p := "ve:" + taskId + ":";
    assert p + ("a:" + Decimal(0)) + ":" + Decimal(1) + ":" + "s" == p + "a" + ":" + Decimal(0) + ":" + (Decimal(1) + ":s");
  }
}
