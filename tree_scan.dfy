/**
 * `get_content` and the comprehension of `change_image_tag_in_all_yaml_files_in_dir`:
 * rewrite every YAML manifest below a directory of the repository tree and collect
 * the files that change as proposed commits.
 */
module TreeScan {
  import opened Wrappers
  import opened PyErrors
  import opened Strings
  import opened Yaml
  import opened Versioner

  /** One item of the repository tree listing: its path and its `type` (`blob` for a file, `tree` for a directory). */
  datatype TreeEntry = TreeEntry(path: string, kind: string)

  /** The dict `get_content` returns: the rewritten documents, the action and the file's path. */
  datatype ProposedCommit = ProposedCommit(content: seq<Value>, action: string, filePath: string)

  /** The files of the branch that can be fetched, already loaded as their YAML documents. */
  type Repository = map<string, seq<Value>>

  /**
   * `set_image_tag` on a file of the branch. A file that cannot be fetched is a
   * VersionerError. Otherwise it raises iff some document cannot be got past, and reports
   * "unchanged" iff every Deployment already carries the new tag. A rewrite keeps the
   * file's number of documents.
   */
  function SetImageTagInFile(repo: Repository, path: string, newTag: string): (r: Outcome)
    ensures path !in repo ==> r == Raised(VersionerError(FetchFailed(path)))
    ensures r.Raised? <==> path !in repo || exists i :: 0 <= i < |repo[path]| && !Patchable(repo[path][i])
    ensures r == VersionUnchanged <==>
      && path in repo
      && (forall i :: 0 <= i < |repo[path]| ==> Patchable(repo[path][i]))
      && (forall i :: 0 <= i < |repo[path]| && IsDeployment(repo[path][i]) ==>
            DeploymentImage(repo[path][i]).Some? && DeploymentImage(repo[path][i]).value.tag == newTag)
    ensures r.Updated? ==> path in repo && |r.docs| == |repo[path]|
  {
    if path !in repo then Raised(VersionerError(FetchFailed(path)))
    else
      var outcome := SetImageTagSpec(repo[path], newTag);
      RaisesIffUnpatchable(repo[path], newTag);
      UnchangedIffTagsMatch(repo[path], newTag);
      if outcome.Updated? then
        UpdatedRewritesEveryDeployment(repo[path], newTag, outcome.docs);
        outcome
      else outcome
  }

  /**
   * The guard of `get_content`: `dir` occurs anywhere in the path (it need not be a
   * leading directory), the entry is a file, and its name ends in `.yml` or `.yaml`.
   */
  predicate IsManifestCandidate(entry: TreeEntry, dir: string)
  {
    IsSubstring(dir, entry.path) && entry.kind == "blob"
    && (EndsWith(entry.path, ".yml") || EndsWith(entry.path, ".yaml"))
  }

  /**
   * `get_content`: `None` for an entry that is not a candidate or whose file already carries
   * the tag, otherwise the rewritten file as an update of that path; an exception of the
   * rewrite escapes.
   */
  function GetContent(repo: Repository, entry: TreeEntry, newTag: string, dir: string): (r: Result<Option<ProposedCommit>, Exception>)
    ensures !IsManifestCandidate(entry, dir) ==> r == Ok(None)
    ensures r.Ok? && r.value.Some? ==>
      && IsManifestCandidate(entry, dir)
      && r.value.value.action == "update"
      && r.value.value.filePath == entry.path
  {
    if !IsManifestCandidate(entry, dir) then Ok(None)
    else
      match SetImageTagInFile(repo, entry.path, newTag)
      case Raised(e) => Err(e)
      case VersionUnchanged => Ok(None)
      case Updated(docs) => Ok(Some(ProposedCommit(docs, "update", entry.path)))
  }

  /** `[p for p in results if p is not None]`, where building `results` stops at the first exception. */
  function Collect(results: seq<Result<Option<ProposedCommit>, Exception>>): (r: Result<seq<ProposedCommit>, Exception>)
    ensures r.Ok? ==> |r.value| <= |results|
  {
    if results == [] then Ok([])
    else
      match results[0]
      case Err(e) => Err(e)
      case Ok(proposal) =>
        match Collect(results[1..])
        case Err(e) => Err(e)
        case Ok(rest) => Ok(if proposal.Some? then [proposal.value] + rest else rest)
  }

  /** `get_content` of each tree entry, in the listing's order. */
  function GetContents(repo: Repository, entries: seq<TreeEntry>, newTag: string, dir: string): (results: seq<Result<Option<ProposedCommit>, Exception>>)
    ensures |results| == |entries|
    ensures forall i :: 0 <= i < |entries| ==> results[i] == GetContent(repo, entries[i], newTag, dir)
  {
    seq(|entries|, i requires 0 <= i < |entries| => GetContent(repo, entries[i], newTag, dir))
  }

  /** The comprehensions of `change_image_tag_in_all_yaml_files_in_dir` over the tree listing. */
  function ChangeImageTagInDir(repo: Repository, entries: seq<TreeEntry>, newTag: string, dir: string): Result<seq<ProposedCommit>, Exception>
  {
    Collect(GetContents(repo, entries, newTag, dir))
  }

  /**
   * A candidate yields a proposal iff its file exists and `set_image_tag` rewrites it: the
   * proposal's content has the file's documents in order with every Deployment on the new
   * tag and everything else as it was.
   */
  lemma ProposalIsRewrittenFile(repo: Repository, entry: TreeEntry, newTag: string, dir: string)
    requires GetContent(repo, entry, newTag, dir).Ok? && GetContent(repo, entry, newTag, dir).value.Some?
    ensures entry.path in repo
    ensures var docs := repo[entry.path];
      var out := GetContent(repo, entry, newTag, dir).value.value.content;
      && |out| == |docs|
      && (forall i :: 0 <= i < |docs| && !IsDeployment(docs[i]) ==> out[i] == docs[i])
      && (forall i :: 0 <= i < |docs| && IsDeployment(docs[i]) ==>
            && DeploymentImage(docs[i]).Some?
            && Get(out[i], ImagePath) == Ok(Str(DeploymentImage(docs[i]).value.name + ":" + newTag))
            && OnlyChangedAlong(docs[i], out[i], ImagePath))
  {
    UpdatedRewritesEveryDeployment(repo[entry.path], newTag, GetContent(repo, entry, newTag, dir).value.value.content);
  }

  /**
   * A candidate whose file exists gives `None` exactly when every document can be got past
   * and every Deployment in it already carries the new tag.
   */
  lemma NoProposalIffTagsMatch(repo: Repository, entry: TreeEntry, newTag: string, dir: string)
    requires IsManifestCandidate(entry, dir) && entry.path in repo
    ensures GetContent(repo, entry, newTag, dir) == Ok(None) <==>
      var docs := repo[entry.path];
      && (forall i :: 0 <= i < |docs| ==> Patchable(docs[i]))
      && (forall i :: 0 <= i < |docs| && IsDeployment(docs[i]) ==>
            DeploymentImage(docs[i]).Some? && DeploymentImage(docs[i]).value.tag == newTag)
  {
    UnchangedIffTagsMatch(repo[entry.path], newTag);
  }

  /** `get_content` raises iff the entry is a candidate whose file is missing or holds a document that cannot be got past. */
  lemma GetContentFailsIff(repo: Repository, entry: TreeEntry, newTag: string, dir: string)
    ensures GetContent(repo, entry, newTag, dir).Err? <==>
      IsManifestCandidate(entry, dir)
      && (entry.path !in repo || exists i :: 0 <= i < |repo[entry.path]| && !Patchable(repo[entry.path][i]))
  {
    if entry.path in repo {
      RaisesIffUnpatchable(repo[entry.path], newTag);
    }
  }

  /** `dir` matches anywhere in a path, so `services` also selects `other-services/app.yml`. */
  lemma DirMatchesInsideLongerName(before: string, dir: string, after: string)
    requires EndsWith(after, ".yml")
    ensures IsManifestCandidate(TreeEntry(before + dir + after, "blob"), dir)
  {
    var path := before + dir + after;
    assert path[|before|..|before| + |dir|] == dir;
    assert OccursAt(dir, path, |before|);
    SubstringIffOccurs(dir, path);
    assert path[|path| - 4..] == after[|after| - 4..];
  }

  /** Collecting fails iff some result is an exception, and then with the first one. */
  lemma {:induction false} CollectFailsIff(results: seq<Result<Option<ProposedCommit>, Exception>>)
    ensures Collect(results).Err? <==> exists i :: 0 <= i < |results| && results[i].Err?
    ensures Collect(results).Err? ==>
      exists i :: 0 <= i < |results| && results[i] == Err(Collect(results).error)
        && forall j :: 0 <= j < i ==> results[j].Ok?
  {
    if results != [] {
      var rest := results[1..];
      CollectFailsIff(rest);
      assert forall i :: 0 <= i < |rest| ==> rest[i] == results[i + 1];
      if results[0].Ok? && Collect(rest).Err? {
        var i :| 0 <= i < |rest| && rest[i] == Err(Collect(rest).error) && forall j :: 0 <= j < i ==> rest[j].Ok?;
        assert results[i + 1] == Err(Collect(results).error);
        forall j | 0 <= j < i + 1
          ensures results[j].Ok?
        {
          if j > 0 {
            assert results[j] == rest[j - 1];
          }
        }
      }
      if Collect(results).Ok? {
        forall i | 0 <= i < |results|
          ensures results[i].Ok?
        {
          if i > 0 {
            assert results[i] == rest[i - 1];
          }
        }
      }
    }
  }

  /**
   * `selected` picks, in increasing order, the results that are proposals, `commits` are
   * those proposals, and every result left out is `None`.
   */
  ghost predicate SelectedInOrder(results: seq<Result<Option<ProposedCommit>, Exception>>,
                                  commits: seq<ProposedCommit>, selected: seq<nat>)
  {
    && |selected| == |commits|
    && (forall k :: 0 <= k < |selected| ==> selected[k] < |results|)
    && (forall k, l :: 0 <= k < l < |selected| ==> selected[k] < selected[l])
    && (forall k :: 0 <= k < |selected| ==> results[selected[k]] == Ok(Some(commits[k])))
    && (forall i :: 0 <= i < |results| && i !in selected ==> results[i] == Ok(None))
  }

  /** Every position moved one place to the right. */
  function Shift(selected: seq<nat>): (r: seq<nat>)
    ensures |r| == |selected| && forall k :: 0 <= k < |r| ==> r[k] == selected[k] + 1
  {
    seq(|selected|, k requires 0 <= k < |selected| => selected[k] + 1)
  }

  /** A leading `None` is skipped: the selection of the rest, shifted. */
  lemma SelectSkip(results: seq<Result<Option<ProposedCommit>, Exception>>, commits: seq<ProposedCommit>, selected: seq<nat>)
    requires results != [] && results[0] == Ok(None)
    requires SelectedInOrder(results[1..], commits, selected)
    ensures SelectedInOrder(results, commits, Shift(selected))
  {
    var rest := results[1..];
    var shifted := Shift(selected);
    forall k | 0 <= k < |shifted|
      ensures results[shifted[k]] == Ok(Some(commits[k]))
    {
      assert results[shifted[k]] == rest[selected[k]];
    }
    forall i | 0 <= i < |results| && i !in shifted
      ensures results[i] == Ok(None)
    {
      if i > 0 {
        assert i - 1 !in selected;
        assert results[i] == rest[i - 1];
      }
    }
  }

  /** A leading proposal is taken: position 0, then the selection of the rest, shifted. */
  lemma SelectTake(results: seq<Result<Option<ProposedCommit>, Exception>>, commits: seq<ProposedCommit>, selected: seq<nat>)
    requires results != [] && results[0].Ok? && results[0].value.Some?
    requires SelectedInOrder(results[1..], commits, selected)
    ensures SelectedInOrder(results, [results[0].value.value] + commits, [0] + Shift(selected))
  {
    TakeHits(results, commits, selected);
    TakeMisses(results, selected);
  }

  lemma TakeHits(results: seq<Result<Option<ProposedCommit>, Exception>>, commits: seq<ProposedCommit>, selected: seq<nat>)
    requires results != [] && results[0].Ok? && results[0].value.Some?
    requires |selected| == |commits|
    requires forall k :: 0 <= k < |selected| ==> selected[k] < |results| - 1
    requires forall k, l :: 0 <= k < l < |selected| ==> selected[k] < selected[l]
    requires forall k :: 0 <= k < |selected| ==> results[1..][selected[k]] == Ok(Some(commits[k]))
    ensures var taken := [0] + Shift(selected);
      var all := [results[0].value.value] + commits;
      && (forall k :: 0 <= k < |taken| ==> taken[k] < |results| && results[taken[k]] == Ok(Some(all[k])))
      && (forall k, l :: 0 <= k < l < |taken| ==> taken[k] < taken[l])
  {
    var rest := results[1..];
    var taken := [0] + Shift(selected);
    var all := [results[0].value.value] + commits;
    assert forall k :: 0 < k < |taken| ==> taken[k] == selected[k - 1] + 1 && all[k] == commits[k - 1];
    forall k | 0 < k < |taken|
      ensures results[taken[k]] == Ok(Some(all[k]))
    {
      assert results[taken[k]] == rest[selected[k - 1]];
    }
    forall k, l | 0 <= k < l < |taken|
      ensures taken[k] < taken[l]
    {
      if k > 0 {
        assert selected[k - 1] < selected[l - 1];
      }
    }
  }

  /** A position of the rest, moved right, is among the taken positions. */
  lemma ShiftedMember(selected: seq<nat>, j: nat)
    requires j in selected
    ensures j + 1 in [0] + Shift(selected)
  {
    var k :| 0 <= k < |selected| && selected[k] == j;
    assert ([0] + Shift(selected))[k + 1] == j + 1;
  }

  lemma TakeMisses(results: seq<Result<Option<ProposedCommit>, Exception>>, selected: seq<nat>)
    requires results != []
    requires forall i :: 0 <= i < |results| - 1 && i !in selected ==> results[1..][i] == Ok(None)
    ensures forall i :: 0 <= i < |results| && i !in [0] + Shift(selected) ==> results[i] == Ok(None)
  {
    var rest := results[1..];
    var taken := [0] + Shift(selected);
    forall i | 0 <= i < |results| && i !in taken
      ensures results[i] == Ok(None)
    {
      assert i != 0;
      if i - 1 in selected {
        ShiftedMember(selected, i - 1);
      }
      assert results[i] == rest[i - 1];
    }
  }

  /** A successful collection is exactly the proposals among the results, in their order. */
  lemma {:induction false} CollectKeepsProposalsInOrder(results: seq<Result<Option<ProposedCommit>, Exception>>)
    requires Collect(results).Ok?
    ensures exists selected :: SelectedInOrder(results, Collect(results).value, selected)
  {
    if results == [] {
      assert SelectedInOrder(results, [], []);
    } else {
      var rest := results[1..];
      CollectKeepsProposalsInOrder(rest);
      var selected :| SelectedInOrder(rest, Collect(rest).value, selected);
      if results[0].value.Some? {
        SelectTake(results, Collect(rest).value, selected);
      } else {
        SelectSkip(results, Collect(rest).value, selected);
      }
    }
  }

  /** Results that are all `None` collect to the empty list. */
  lemma {:induction false} CollectNothing(results: seq<Result<Option<ProposedCommit>, Exception>>)
    requires forall i :: 0 <= i < |results| ==> results[i] == Ok(None)
    ensures Collect(results) == Ok([])
  {
    if results != [] {
      assert forall i :: 0 <= i < |results[1..]| ==> results[1..][i] == results[i + 1];
      CollectNothing(results[1..]);
    }
  }

  /** The aggregation raises iff some entry's `get_content` does, and then with the first such entry's exception. */
  lemma DirFailsIff(repo: Repository, entries: seq<TreeEntry>, newTag: string, dir: string)
    ensures ChangeImageTagInDir(repo, entries, newTag, dir).Err? <==>
      exists i :: 0 <= i < |entries| && GetContent(repo, entries[i], newTag, dir).Err?
    ensures ChangeImageTagInDir(repo, entries, newTag, dir).Err? ==>
      exists i :: 0 <= i < |entries|
        && GetContent(repo, entries[i], newTag, dir) == Err(ChangeImageTagInDir(repo, entries, newTag, dir).error)
        && forall j :: 0 <= j < i ==> GetContent(repo, entries[j], newTag, dir).Ok?
  {
    CollectFailsIff(GetContents(repo, entries, newTag, dir));
  }

  /**
   * On success the aggregation holds, in the listing's order, the proposals of exactly those
   * entries whose `get_content` is not `None`; with distinct paths in the listing, the
   * proposals are for distinct candidate files.
   */
  lemma DirKeepsProposalsInOrder(repo: Repository, entries: seq<TreeEntry>, newTag: string, dir: string)
    requires ChangeImageTagInDir(repo, entries, newTag, dir).Ok?
    ensures exists selected ::
      SelectedInOrder(GetContents(repo, entries, newTag, dir), ChangeImageTagInDir(repo, entries, newTag, dir).value, selected)
    ensures var commits := ChangeImageTagInDir(repo, entries, newTag, dir).value;
      forall k :: 0 <= k < |commits| ==>
        commits[k].action == "update"
        && exists i :: 0 <= i < |entries| && IsManifestCandidate(entries[i], dir) && commits[k].filePath == entries[i].path
    ensures (forall i, j :: 0 <= i < j < |entries| ==> entries[i].path != entries[j].path) ==>
      var commits := ChangeImageTagInDir(repo, entries, newTag, dir).value;
      forall k, l :: 0 <= k < l < |commits| ==> commits[k].filePath != commits[l].filePath
  {
    var results := GetContents(repo, entries, newTag, dir);
    var commits := Collect(results).value;
    CollectKeepsProposalsInOrder(results);
    var selected :| SelectedInOrder(results, commits, selected);
    forall k | 0 <= k < |commits|
      ensures commits[k].action == "update"
      ensures IsManifestCandidate(entries[selected[k]], dir) && commits[k].filePath == entries[selected[k]].path
    {
      assert GetContent(repo, entries[selected[k]], newTag, dir) == Ok(Some(commits[k]));
    }
  }

  /** A listing in which every entry gives `None` aggregates to the empty list. */
  lemma NothingToCommit(repo: Repository, entries: seq<TreeEntry>, newTag: string, dir: string)
    requires forall i :: 0 <= i < |entries| ==> GetContent(repo, entries[i], newTag, dir) == Ok(None)
    ensures ChangeImageTagInDir(repo, entries, newTag, dir) == Ok([])
  {
    CollectNothing(GetContents(repo, entries, newTag, dir));
  }
}
