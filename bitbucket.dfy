/** The repository client of src/bitbucket.rs: how each request is addressed
    and shaped, and how each decoded response becomes a result. Sending the
    request and decoding the body are outside the model; the functions here
    start from the decoded response. */
module Bitbucket {
  import opened Results
  import opened Json

  /** An issue of the tracker: its number, its title and its description. */
  datatype Issue = Issue(id: int, title: string, body: string)

  // ---------------------------------------------------------------- addresses

  const RepositoriesBase := "https://api.bitbucket.org/2.0/repositories/"

  /** The three collections the client talks to. */
  datatype Resource = Issues | Branches | Commits

  function Suffix(res: Resource): string {
    match res
    case Issues => "/issues"
    case Branches => "/refs/branches"
    case Commits => "/commits"
  }

  predicate HasSuffix(s: string, t: string) {
    |t| <= |s| && s[|s| - |t|..] == t
  }

  /** The URL of a collection of repository `repo` ("workspace/slug"). */
  function Endpoint(repo: string, res: Resource): (url: string)
    ensures |url| == |RepositoriesBase| + |repo| + |Suffix(res)|
    ensures url[..|RepositoriesBase|] == RepositoriesBase
    ensures url[|RepositoriesBase|..|RepositoriesBase| + |repo|] == repo
    ensures HasSuffix(url, Suffix(res))
  {
    RepositoriesBase + repo + Suffix(res)
  }

  /** Reads what follows the base URL back as repository and collection. */
  function ParseCollection(rest: string): Option<(string, Resource)> {
    if HasSuffix(rest, "/issues") then Some((rest[..|rest| - 7], Issues))
    else if HasSuffix(rest, "/refs/branches") then Some((rest[..|rest| - 14], Branches))
    else if HasSuffix(rest, "/commits") then Some((rest[..|rest| - 8], Commits))
    else None
  }

  /** Reads a URL back as repository and collection. */
  function ParseEndpoint(url: string): Option<(string, Resource)> {
    if |url| < |RepositoriesBase| || url[..|RepositoriesBase|] != RepositoriesBase then None
    else ParseCollection(url[|RepositoriesBase|..])
  }

  /** Appending a suffix and cutting it off again gives back the start. */
  lemma StripSuffix(repo: string, suffix: string)
    ensures HasSuffix(repo + suffix, suffix)
    ensures (repo + suffix)[..|repo|] == repo
  {
    assert (repo + suffix)[|repo|..] == suffix;
  }

  /** One differing character rules a suffix out. */
  lemma MismatchNoSuffix(s: string, t: string, k: nat)
    requires |t| <= |s| && k < |t| && s[|s| - |t| + k] != t[k]
    ensures !HasSuffix(s, t)
  {
    assert s[|s| - |t|..][k] == s[|s| - |t| + k];
  }

  /** The character at position `k` of an appended suffix. */
  lemma SuffixAt(repo: string, suffix: string, k: nat)
    requires k < |suffix|
    ensures (repo + suffix)[|repo| + k] == suffix[k]
  {
  }

  lemma ParseIssuesInverts(repo: string)
    ensures ParseCollection(repo + "/issues") == Some((repo, Issues))
  {
    StripSuffix(repo, "/issues");
  }

  lemma ParseBranchesInverts(repo: string)
    ensures ParseCollection(repo + "/refs/branches") == Some((repo, Branches))
  {
    var rest := repo + "/refs/branches";
    StripSuffix(repo, "/refs/branches");
    SuffixAt(repo, "/refs/branches", 7);
    MismatchNoSuffix(rest, "/issues", 0);
  }

  lemma ParseCommitsInverts(repo: string)
    ensures ParseCollection(repo + "/commits") == Some((repo, Commits))
  {
    var rest := repo + "/commits";
    StripSuffix(repo, "/commits");
    SuffixAt(repo, "/commits", 1);
    MismatchNoSuffix(rest, "/issues", 0);
    if 14 <= |rest| {
      SuffixAt(repo, "/commits", 0);
      MismatchNoSuffix(rest, "/refs/branches", 6);
    }
  }

  /** No collection's suffix ends another's, so the suffix names the
      collection and what precedes it is the repository. */
  lemma ParseCollectionInverts(repo: string, res: Resource)
    ensures ParseCollection(repo + Suffix(res)) == Some((repo, res))
  {
    match res
    case Issues => ParseIssuesInverts(repo);
    case Branches => ParseBranchesInverts(repo);
    case Commits => ParseCommitsInverts(repo);
  }

  /** Every URL names exactly one repository and collection. */
  lemma ParseEndpointInverts(repo: string, res: Resource)
    ensures ParseEndpoint(Endpoint(repo, res)) == Some((repo, res))
  {
    var url := Endpoint(repo, res);
    assert url[|RepositoriesBase|..] == repo + Suffix(res);
    ParseCollectionInverts(repo, res);
  }

  /** Distinct repositories or collections never share a URL. */
  lemma EndpointInjective(repo1: string, res1: Resource, repo2: string, res2: Resource)
    requires Endpoint(repo1, res1) == Endpoint(repo2, res2)
    ensures repo1 == repo2 && res1 == res2
  {
    ParseEndpointInverts(repo1, res1);
    ParseEndpointInverts(repo2, res2);
  }

  // ------------------------------------------------------------ fetch_issues

  const I32Min := -0x8000_0000
  const I32Max := 0x7fff_ffff

  /** One element of `values` as an `Issue`: an integral `id` that fits an
      `i32`, a string `title` and a string `content.raw`; other members are
      ignored. */
  function DecodeIssue(v: Value): (r: Result<Issue>)
    ensures r.Ok? <==> v.Object? && Member(v, "id").Number? && I32Min <= Member(v, "id").n <= I32Max
                       && Member(v, "title").Str? && Member(Member(v, "content"), "raw").Str?
    ensures r.Ok? ==> Member(v, "id") == Number(r.value.id) && Member(v, "title") == Str(r.value.title)
                      && Member(Member(v, "content"), "raw") == Str(r.value.body)
    ensures r.Err? ==> r.error == DecodeFailed
  {
    var id := Member(v, "id");
    var title := Member(v, "title");
    var raw := Member(Member(v, "content"), "raw");
    if v.Object? && id.Number? && I32Min <= id.n <= I32Max && title.Str? && raw.Str?
    then Ok(Issue(id.n, title.s, raw.s))
    else Err(DecodeFailed)
  }

  /** Members other than `id`, `title` and `content` do not affect decoding. */
  lemma DecodeIgnoresOtherMembers(v: Value, key: string, extra: Value)
    requires v.Object? && key != "id" && key != "title" && key != "content"
    ensures DecodeIssue(Object(v.fields[key := extra])) == DecodeIssue(v)
  {
    var w := Object(v.fields[key := extra]);
    assert Member(w, "id") == Member(v, "id");
    assert Member(w, "title") == Member(v, "title");
    assert Member(w, "content") == Member(v, "content");
  }

  /** A JSON list decoded element by element, failing if any element fails. */
  function DecodeIssues(items: seq<Value>): (r: Result<seq<Issue>>)
    ensures r.Ok? <==> forall i :: 0 <= i < |items| ==> DecodeIssue(items[i]).Ok?
    ensures r.Ok? ==> |r.value| == |items| && forall i :: 0 <= i < |items| ==> DecodeIssue(items[i]) == Ok(r.value[i])
    ensures r.Err? ==> r.error == DecodeFailed
  {
    if items == [] then Ok([])
    else
      match DecodeIssue(items[0])
      case Err(e) => Err(e)
      case Ok(first) =>
        match DecodeIssues(items[1..])
        case Err(e) => Err(e)
        case Ok(others) =>
          assert forall i :: 1 <= i < |items| ==> items[i] == items[1..][i - 1];
          Ok([first] + others)
  }

  /** `fetch_issues` once the response is decoded: null or absent `values`
      means no issues; otherwise `values` must be a list of issues. */
  function IssuesFromResponse(resp: Value): (r: Result<seq<Issue>>)
    ensures Member(resp, "values") == Null ==> r == Ok([])
    ensures Member(resp, "values").Array? ==> r == DecodeIssues(Member(resp, "values").items)
    ensures r.Ok? <==> Member(resp, "values").Null?
                       || (Member(resp, "values").Array?
                           && forall i :: 0 <= i < |Member(resp, "values").items| ==> DecodeIssue(Member(resp, "values").items[i]).Ok?)
    ensures r.Ok? && Member(resp, "values") != Null ==>
              Member(resp, "values").Array?
              && |r.value| == |Member(resp, "values").items|
              && forall i :: 0 <= i < |r.value| ==> DecodeIssue(Member(resp, "values").items[i]) == Ok(r.value[i])
    ensures r.Err? ==> r.error == DecodeFailed
  {
    var values := Member(resp, "values");
    if values.Null? then Ok([])
    else if values.Array? then DecodeIssues(values.items)
    else Err(DecodeFailed)
  }

  /** An issue as the tracker serves it. */
  function EncodeIssue(x: Issue): Value {
    Object(map["id" := Number(x.id), "title" := Str(x.title), "content" := Object(map["raw" := Str(x.body)])])
  }

  /** A tracker response listing the given issues. */
  function IssueListing(xs: seq<Issue>): Value {
    Object(map["values" := Array(seq(|xs|, i requires 0 <= i < |xs| => EncodeIssue(xs[i])))])
  }

  /** Every listed issue comes back, in the order listed. */
  lemma IssuesRoundTrip(xs: seq<Issue>)
    requires forall i :: 0 <= i < |xs| ==> I32Min <= xs[i].id <= I32Max
    ensures IssuesFromResponse(IssueListing(xs)) == Ok(xs)
  {
    var values := Member(IssueListing(xs), "values");
    assert values.Array?;
    var items := values.items;
    assert |items| == |xs|;
    forall i | 0 <= i < |xs| ensures DecodeIssue(items[i]) == Ok(xs[i]) {
      assert items[i] == EncodeIssue(xs[i]);
      var v := EncodeIssue(xs[i]);
      assert Member(v, "id") == Number(xs[i].id);
      assert Member(Member(v, "content"), "raw") == Str(xs[i].body);
    }
    var r := DecodeIssues(items);
    assert r.Ok?;
    assert forall i :: 0 <= i < |xs| ==> Ok(r.value[i]) == Ok(xs[i]);
    assert r.value == xs;
  }

  /** A `values` member that is present but not a list is a decoding error,
      not an empty list. */
  lemma NonListValuesFail(resp: Value)
    requires Member(resp, "values") != Null && !Member(resp, "values").Array?
    ensures IssuesFromResponse(resp) == Err(DecodeFailed)
  {
  }

  // ----------------------------------------------------------- create_branch

  /** The JSON body posted to create branch `name` at commit `fromCommit`. */
  function BranchRequestBody(name: string, fromCommit: string): (body: Value)
    ensures body.Object? && body.fields.Keys == {"name", "target"}
    ensures Member(body, "target").Object? && Member(body, "target").fields.Keys == {"hash"}
  {
    Object(map["name" := Str(name), "target" := Object(map["hash" := Str(fromCommit)])])
  }

  /** What the service reads from such a body: the name and the target hash. */
  function BranchRequestFields(body: Value): Option<(string, string)> {
    match (AsStr(Member(body, "name")), AsStr(Member(Member(body, "target"), "hash")))
    case (Some(name), Some(hash)) => Some((name, hash))
    case _ => None
  }

  lemma BranchRequestRoundTrip(name: string, fromCommit: string)
    ensures BranchRequestFields(BranchRequestBody(name, fromCommit)) == Some((name, fromCommit))
  {
    var body := BranchRequestBody(name, fromCommit);
    assert Member(body, "name") == Str(name);
    assert Member(Member(body, "target"), "hash") == Str(fromCommit);
  }

  const CreateBranchFailure := "Failed to create branch: "

  /** reqwest's `StatusCode::is_success`. */
  predicate IsSuccess(status: int) {
    200 <= status <= 299
  }

  /** `create_branch` once the response has arrived: a 2xx status succeeds,
      any other fails with a message that carries the response text. */
  function CreateBranchOutcome(status: int, responseText: string): (r: Result<()>)
    ensures r.Ok? <==> IsSuccess(status)
    ensures r.Err? ==> (r.error.Message? && |r.error.text| == |CreateBranchFailure| + |responseText|
                        && r.error.text[..|CreateBranchFailure|] == CreateBranchFailure
                        && r.error.text[|CreateBranchFailure|..] == responseText)
  {
    if IsSuccess(status) then Ok(()) else Err(Message(CreateBranchFailure + responseText))
  }

  // ------------------------------------------------------- get_latest_commit

  const NoCommitHash := "No se pudo obtener el hash del commit"

  /** `get_latest_commit` once the response is decoded: `values[0].hash` as a
      string, or the fixed error. */
  function LatestCommitFromResponse(resp: Value): (r: Result<string>)
    ensures r.Ok? <==> Member(resp, "values").Array? && |Member(resp, "values").items| > 0
                       && Member(Member(resp, "values").items[0], "hash").Str?
    ensures r.Ok? ==> Str(r.value) == Member(Member(resp, "values").items[0], "hash")
    ensures r.Err? ==> r == Err(Message(NoCommitHash))
  {
    match AsStr(Member(Element(Member(resp, "values"), 0), "hash"))
    case Some(hash) => Ok(hash)
    case None => Err(Message(NoCommitHash))
  }

  /** A commit listing, newest first, as the service serves it. */
  function CommitListing(hashes: seq<string>): Value {
    Object(map["values" := Array(seq(|hashes|, i requires 0 <= i < |hashes| => Object(map["hash" := Str(hashes[i])])))])
  }

  /** The newest listed commit is the one returned; an empty listing is the
      fixed error. */
  lemma LatestCommitIsFirstListed(hashes: seq<string>)
    ensures LatestCommitFromResponse(CommitListing(hashes))
            == if hashes == [] then Err(Message(NoCommitHash)) else Ok(hashes[0])
  {
    if hashes != [] {
      var first := Member(CommitListing(hashes), "values").items[0];
      assert Member(first, "hash") == Str(hashes[0]);
    }
  }
}
