# deployversioner in Dafny

A model of the image-tag rewrite engine of `deployversioner`. The tool bumps the
container image tag of Kubernetes Deployments kept in a GitLab repository, then either
commits the change or prints it.

The model covers these parts of `src/deployversioner/deployversioner.py`:

- `parse_image`: split `name:tag`, rejecting any reference whose colon count is not one
  (module `Images`, file `image.dfy`).
- `set_image_tag`, on the documents of one YAML file (module `Versioner`, file
  `set_image_tag.dfy`).
  - It loops over the documents and touches only those whose `kind` is `Deployment`.
  - It walks `spec.template.spec.containers`.
  - It rejects more than one container template.
  - It re-raises the `IndexError` of an empty list as `VersionerError`.
  - It rewrites `containers[0]["image"]` to `name:new_tag` when the tag differs.
  - If nothing changed, it raises `VersionUnchangedException`.
  - `Versioner.SetImageTag` is the imperative loop, with a local copy of the documents
    and the `changed` flag. It is proved equal to the fold `Versioner.SetImageTagSpec`,
    which the lemmas are about.
- `get_content` and the list comprehensions of
  `change_image_tag_in_all_yaml_files_in_dir` (module `TreeScan`, file `tree_scan.dfy`).
  - An entry of the tree listing is kept only when all three hold: the directory text
    occurs anywhere in its path, it is a blob, and it ends in `.yml` or `.yaml`.
  - Its file is rewritten. An unchanged file gives `None`; a changed one gives
    `{content, action: "update", file_path}`.
  - The `None`s are dropped. The first exception ends the whole scan.
- The base-URL normalisation repeated in `get_file_contents`, `commit_changes` and
  `change_image_tag_in_all_yaml_files_in_dir`, and the JSON body of the single-file
  commit (module `Gitlab`, file `gitlab.dfy`).

YAML documents are modelled as a value type (module `Yaml`, file `yaml_value.dfy`):
`None`, other scalars, strings, lists and dicts. Dicts are lists of string-keyed
entries, in order. The model spells out the Python operations the loop uses, each with
the exception it raises:

- `key in doc`
- `doc[key]` and `lst[i]`
- `len(x)`
- the in-place assignment `containers[0]["image"] = ...`

So every way the loop can crash is its own outcome: `KeyError`, `TypeError` and
`AttributeError` escape uncaught, while `VersionerError` is the program's own error.

Differences between the code and a plain reading of its purpose:

- Only the kind `Deployment` is rewritten.
- A `None` document, from an empty `---` section, crashes `"kind" in doc` with a
  `TypeError`. It is not skipped.
- A missing key on the container path is an uncaught `KeyError`, not a `VersionerError`.
- The directory match is a substring test, so `services` also selects
  `other-services/app.yml`.
- Re-running with the same tag reports "unchanged" only when the tag holds no colon. A
  tag such as `a:b` writes `name:a:b`, which the next run rejects as an invalid image
  (`Versioner.ColonTagBreaksReapply`).

## Model

| member | source | states |
|---|---|---|
| `Images.Split` | src/deployversioner/deployversioner.py:85 | `image.split(":")` has one piece more than there are colons, no piece holds a colon, and joining the pieces with `:` gives the image back |
| `Images.ParseImage` | src/deployversioner/deployversioner.py:84-88 | succeeds iff the image holds exactly one colon; then `name + ":" + tag` is the image and neither side holds a colon; otherwise `VersionerError` naming the image |
| `Images.ParseFormattedImage` | src/deployversioner/deployversioner.py:84-88 | parsing `name:tag` built from colon-free parts gives back exactly those parts |
| `Images.TwoColonsRejected` | src/deployversioner/deployversioner.py:86-87 | a reference with a colon after the first one (in the tag or a registry port) is a `VersionerError` |
| `Images.ColonSplitUnique` | src/deployversioner/deployversioner.py:85 | a colon-free name fixes where `name:tag` splits, so name and tag are unique |
| `Images.ParseTestImage` | tests/test_deployversioner.py:54-58 | `docker-io.dbc.dk/author-name-suggester-service:master-9` splits into that name and `master-9` |
| `Strings.SubstringIffOccurs` | src/deployversioner/deployversioner.py:112 | Python's `dir in path` holds exactly when `dir` occurs at some position of `path` |
| `Yaml.Contains` | src/deployversioner/deployversioner.py:64 | `"kind" in doc` tests the keys of a dict, the elements of a list or the text of a string, and is a `TypeError` on `None` and other scalars |
| `Yaml.GetAfterPut` | src/deployversioner/deployversioner.py:73 | after the assignment, reading the same path gives the assigned value |
| `Yaml.PutCurrentValue` | src/deployversioner/deployversioner.py:72-74 | assigning the value already there changes nothing |
| `Yaml.PutOnlyChangesPath` | src/deployversioner/deployversioner.py:73 | the assignment leaves every dict and list on the way with the same keys in the same order and every entry off the path unchanged |
| `Yaml.GetPrefixAfterPut` | src/deployversioner/deployversioner.py:66-73 | assigning below `containers` is seen through the document: the document's container list becomes the list with the assignment done in it |
| `Yaml.SiblingKeysUnchanged` | src/deployversioner/deployversioner.py:64-73 | a write below `spec` does not change what `doc["kind"]` or `"kind" in doc` give |
| `Yaml.GetConcat` | src/deployversioner/deployversioner.py:66-70 | chained subscripts read a path in two parts, stopping at the first exception |
| `Versioner.SetImageTag` | src/deployversioner/deployversioner.py:61-82 | the `for` loop over the documents, with its copy of the documents and the `changed` flag, computes exactly the fold the lemmas below are about |
| `Versioner.FoldStopsAtFailure` | src/deployversioner/deployversioner.py:63-78 | an exception in document `i`, after the earlier documents went through, is the exception of the whole call |
| `Versioner.FoldFails` | src/deployversioner/deployversioner.py:63-78 | the loop raises iff some document's step raises, and then with the first such document's exception |
| `Versioner.FoldValues` | src/deployversioner/deployversioner.py:62-75 | a loop that gets through keeps the number and order of the documents, each output is its document's step result, and `changed` is set iff some step changed a tag |
| `Versioner.PatchableIff` | src/deployversioner/deployversioner.py:63-78 | a document gets through the loop body iff it is a dict that is not a Deployment or is a Deployment with one container and a `name:tag` image, or a string or list in which `"kind"` does not occur |
| `Versioner.NonMappingDocument` | src/deployversioner/deployversioner.py:64 | `None` and scalar documents crash with `TypeError`; strings and lists without `"kind"` pass unchanged, and with it crash on `doc["kind"]` |
| `Versioner.NonDeploymentKept` | src/deployversioner/deployversioner.py:64 | a dict without `kind`, or with a `kind` other than `Deployment`, is passed through unchanged and does not set `changed` |
| `Versioner.DeploymentRewritten` | src/deployversioner/deployversioner.py:64-75 | a Deployment gets through iff it has one container with a `name:tag` image; the result is the document with that image set to `name:newTag`, and `changed` is set iff the old tag differed |
| `Versioner.DeploymentImageAddressable` | src/deployversioner/deployversioner.py:66-70 | a well-formed Deployment's `containers[0]["image"]` can be read and assigned, and reads `name:tag` |
| `Versioner.MissingPathRaises` | src/deployversioner/deployversioner.py:66 | a Deployment without `spec.template.spec.containers` raises the uncaught `KeyError` (or `TypeError` for a non-dict on the way) of that lookup |
| `Versioner.KeyPathErrors` | src/deployversioner/deployversioner.py:66 | a chain of dict lookups fails only with `KeyError` or `TypeError`, never `IndexError`, so the `except IndexError` does not catch it |
| `Versioner.TooManyContainersRejected` | src/deployversioner/deployversioner.py:67-69 | more than one container template is a `VersionerError` |
| `Versioner.EmptyContainersRejected` | src/deployversioner/deployversioner.py:70-78 | an empty container list raises `IndexError`, re-raised as a `VersionerError` |
| `Versioner.MissingImageRaises` | src/deployversioner/deployversioner.py:70 | a container without an `image` key raises an uncaught `KeyError` |
| `Versioner.InvalidImageRejected` | src/deployversioner/deployversioner.py:70-71 | an image whose colon count is not one is a `VersionerError` naming the image |
| `Versioner.RaisesIffUnpatchable` | src/deployversioner/deployversioner.py:63-78 | `set_image_tag` raises iff some document cannot get through, and the exception is the first such document's |
| `Versioner.UpdatedRewritesEveryDeployment` | src/deployversioner/deployversioner.py:61-82 | after success: same number and order of documents; each Deployment's single image reads `old name:newTag`, and nothing else in it changed; every other document is unchanged; some Deployment had another tag |
| `Versioner.UnchangedIffTagsMatch` | src/deployversioner/deployversioner.py:62-81 | `VersionUnchangedException` is raised exactly when every document gets through and every Deployment already has the new tag |
| `Versioner.NoDeploymentIsUnchanged` | src/deployversioner/deployversioner.py:79-81 | a file that gets through and holds no Deployment raises `VersionUnchangedException` |
| `Versioner.RewrittenDeploymentImage` | src/deployversioner/deployversioner.py:72-74 | the rewritten Deployment is still a Deployment, and its image parses to the old name and the new colon-free tag |
| `Versioner.ReapplyIsUnchanged` | src/deployversioner/deployversioner.py:72-81 | re-running with the same colon-free tag on a successful output raises `VersionUnchangedException` |
| `Versioner.ColonTagBreaksReapply` | src/deployversioner/deployversioner.py:71-74 | with a tag holding a colon, the first run writes `name:a:b` and a second run raises `VersionerError` for that image |
| `Versioner.MixedFileRewritten` | src/deployversioner/deployversioner.py:63-75 | in a file with a Deployment on an old tag, a Service and a Deployment already on the new tag, both Deployments end on the new tag, the Service is untouched and the order is kept |
| `Versioner.SameTagIsUnchanged` | tests/test_deployversioner.py:43-52 | a Deployment already on the requested tag raises `VersionUnchangedException` |
| `TreeScan.SetImageTagInFile` | src/deployversioner/deployversioner.py:37-82 | a file that cannot be fetched is a `VersionerError`; otherwise the run raises iff some document cannot get through, reports "unchanged" iff every Deployment already has the new tag, and a rewrite keeps the number of documents |
| `TreeScan.GetContent` | src/deployversioner/deployversioner.py:111-123 | entries that are not candidates give `None`; a proposal is always a candidate's, with action `update` and the entry's own path |
| `TreeScan.DirMatchesInsideLongerName` | src/deployversioner/deployversioner.py:112-113 | the directory text may occur anywhere in the path: any `.yml` blob whose path contains it is a candidate |
| `TreeScan.ProposalIsRewrittenFile` | src/deployversioner/deployversioner.py:116-123 | a proposal's content is the file's documents in order, with every Deployment on the new tag and everything else as it was |
| `TreeScan.NoProposalIffTagsMatch` | src/deployversioner/deployversioner.py:117-122 | an existing candidate gives `None` exactly when its documents get through and every Deployment already has the new tag |
| `TreeScan.GetContentFailsIff` | src/deployversioner/deployversioner.py:111-123 | `get_content` raises iff the entry is a candidate whose file cannot be fetched or holds a document that cannot get through |
| `TreeScan.Collect` | src/deployversioner/deployversioner.py:138-140 | the filtered list is never longer than the listing |
| `TreeScan.CollectFailsIff` | src/deployversioner/deployversioner.py:138-140 | building the list fails iff some result is an exception, and then with the first one |
| `TreeScan.CollectKeepsProposalsInOrder` | src/deployversioner/deployversioner.py:138-140 | a successful result is exactly the non-`None` results, in order: an increasing choice of positions whose results are the proposals, every other position being `None` |
| `TreeScan.CollectNothing` | src/deployversioner/deployversioner.py:138-140 | results that are all `None` give the empty list |
| `TreeScan.DirFailsIff` | src/deployversioner/deployversioner.py:138-141 | the directory run raises iff some entry's `get_content` raises, with the first such exception; there is no partial list |
| `TreeScan.DirKeepsProposalsInOrder` | src/deployversioner/deployversioner.py:138-141 | the directory run returns the entries' proposals in listing order; each is an update of a candidate's path, and distinct paths in the listing give distinct files |
| `TreeScan.NothingToCommit` | src/deployversioner/deployversioner.py:138-141 | when no entry gives a proposal the result is the empty list |
| `Gitlab.NormalizeUrl` | src/deployversioner/deployversioner.py:31-32 | a URL not beginning with `http` gets `https://` in front, one that does is kept; the result always begins with `http` |
| `Gitlab.NormalizeUrlIdempotent` | src/deployversioner/deployversioner.py:93-94 | normalising an already normalised URL changes nothing |
| `Gitlab.NormalizeUrlKeepsUrl` | src/deployversioner/deployversioner.py:128-129 | the given URL is the tail of the normalised one |
| `Gitlab.HttpNamedHostKept` | src/deployversioner/deployversioner.py:31 | only the four letters are tested, so a bare host such as `httpbin.org` gets no scheme |
| `Gitlab.NormalizeTestHost` | tests/test_deployversioner.py:86-88 | the unit test's host `gitlab.url` becomes `https://gitlab.url` |
| `Gitlab.SingleFileCommitBody` | src/deployversioner/deployversioner.py:97-99 | the body carries the request's branch, the content, and the message `updating image tag in <file>`, from which the file name reads back |
| `Gitlab.CommitMessageNamesFile` | src/deployversioner/deployversioner.py:97 | different files get different commit messages |
| `Gitlab.TestCommitBody` | tests/test_deployversioner.py:72-73 | the unit test's body for `app/file.ext` on `staging` |

## Left out

- HTTP: `get_file_contents`, `get_project_number`, `commit_changes` and the tree fetch. They are network I/O. The repository's files are a map from path to their loaded documents, and the tree listing is a parameter. A fetch failure is the one `VersionerError` `FetchFailed`; the message text is not modelled.
- `urllib.parse.quote` and the full request URLs and headers built around the normalised base. These are library calls and string formatting; only the normalisation is modelled.
- YAML text: `yaml.safe_load_all` and `yaml.dump_all`. These are library calls. A proposal's content is the list of rewritten documents, not their text. YAML parse errors are not modelled.
- JSON decoding of the project lookup and of the tree listing. These are library calls. Tree entries are a datatype with a path and a type, so the `KeyError` of an entry without them cannot arise.
- YAML anchors and aliases, which make two places in a document the same object. Documents are values, so an assignment through one alias is not seen through another.
- Dict keys other than strings, and duplicate keys. `len` of a dict counts its entries.
- `setup_args` and `main`. These are argument parsing, printing and exit plumbing. The outcomes map as follows: `VersionUnchangedException` prints and exits cleanly, `VersionerError` exits with status 1, and any other exception (`KeyError`, `TypeError`, `AttributeError`) crashes.
- `commit_changes_in_multiple_files`. It is a stub that returns `None`.
- The project id is carried as the text the URL formats it to, not as an integer.
- `Versioner.ReapplyIsUnchanged`: requires a new tag without a colon, because with a colon the rewrite is not idempotent (`Versioner.ColonTagBreaksReapply`).
