/** The GitLab connection settings, the base-URL normalisation and the single-file commit body. */
module Gitlab {

  /** `GitlabRequest(url, api_token, project_id, branch)`; the project id is carried as its decimal text. */
  datatype GitlabRequest = GitlabRequest(url: string, apiToken: string, projectId: string, branch: string)

  /** The JSON body of the single-file `PUT`: `{"branch", "content", "commit_message"}`. */
  datatype CommitBody = CommitBody(branch: string, content: string, commitMessage: string)

  const Scheme: string := "https://"

  const CommitMessagePrefix: string := "updating image tag in "

  /** Python's `s[:n]`: the first `n` characters, or all of a shorter string. */
  function Take(s: string, n: nat): (r: string)
    ensures r <= s
    ensures |r| == if |s| < n then |s| else n
  {
    if |s| < n then s else s[..n]
  }

  /**
   * `if url[:4] != "http": url = "https://{}".format(url)`: a URL that does not begin with
   * `http` gets the `https://` scheme, any other is kept; either way the result begins
   * with `http` and ends with the URL it was given.
   */
  function NormalizeUrl(url: string): (r: string)
    ensures "http" <= url ==> r == url
    ensures !("http" <= url) ==> r == Scheme + url
    ensures "http" <= r
  {
    if Take(url, 4) != "http" then Scheme + url else url
  }

  /** Normalising twice is normalising once. */
  lemma NormalizeUrlIdempotent(url: string)
    ensures NormalizeUrl(NormalizeUrl(url)) == NormalizeUrl(url)
  {
  }

  /** Only the text `http` is tested: a bare host name that happens to start with it gets no scheme. */
  lemma HttpNamedHostKept(rest: string)
    ensures NormalizeUrl("http" + rest) == "http" + rest
  {
    assert "http" <= "http" + rest;
  }

  /** The URL given can be read back from the end of the normalised one. */
  lemma NormalizeUrlKeepsUrl(url: string)
    ensures var r := NormalizeUrl(url);
      |url| <= |r| && r[|r| - |url|..] == url
  {
  }

  /** The base of every request: `https://gitlab.url` for the host `gitlab.url` of the unit test. */
  lemma NormalizeTestHost()
    ensures NormalizeUrl("gitlab.url") == "https://gitlab.url"
  {
    assert "gitlab.url"[0] != "http"[0];
  }

  /**
   * The body `commit_changes` sends: the request's branch, the new file content and a
   * message naming the file, from which the file name can be read back.
   */
  function SingleFileCommitBody(request: GitlabRequest, filename: string, content: string): (b: CommitBody)
    ensures b.branch == request.branch && b.content == content
    ensures CommitMessagePrefix <= b.commitMessage
    ensures b.commitMessage[|CommitMessagePrefix|..] == filename
  {
    CommitBody(request.branch, content, CommitMessagePrefix + filename)
  }

  /** Different files give different commit messages. */
  lemma CommitMessageNamesFile(request: GitlabRequest, a: string, b: string, content: string)
    requires a != b
    ensures SingleFileCommitBody(request, a, content).commitMessage != SingleFileCommitBody(request, b, content).commitMessage
  {
    var ma := SingleFileCommitBody(request, a, content).commitMessage;
    var mb := SingleFileCommitBody(request, b, content).commitMessage;
    assert ma[|CommitMessagePrefix|..] == a && mb[|CommitMessagePrefix|..] == b;
  }

  /** The body of the unit test's commit of `app/file.ext` on `staging`. */
  lemma TestCommitBody()
    ensures SingleFileCommitBody(GitlabRequest("gitlab.url", "token", "103", "staging"), "app/file.ext", "cont")
      == CommitBody("staging", "cont", "updating image tag in app/file.ext")
  {
  }
}
