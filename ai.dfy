/** The text-generation client of src/ai.rs, branch-name call: the request it
    builds and how it reads the decoded answer. Sending the request is outside
    the model. */
module Ai {
  import opened Results
  import opened Text

  // -------------------------------------------------------------- request

  datatype GeminiPart = GeminiPart(text: string)
  datatype GeminiContent = GeminiContent(parts: seq<GeminiPart>)
  datatype GeminiRequest = GeminiRequest(contents: seq<GeminiContent>)

  const GenerateContentEndpoint := "https://generativelanguage.googleapis.com/v1beta/models/gemini-2.0-flash:generateContent"
  const KeyParameter := "?key="

  /** The URL the request is posted to, carrying the API key. */
  function GenerateContentUrl(apiKey: string): (url: string)
    ensures |url| == |GenerateContentEndpoint| + |KeyParameter| + |apiKey|
    ensures url[..|GenerateContentEndpoint|] == GenerateContentEndpoint
    ensures url[|GenerateContentEndpoint|..|GenerateContentEndpoint| + |KeyParameter|] == KeyParameter
    ensures url[|GenerateContentEndpoint| + |KeyParameter|..] == apiKey
  {
    GenerateContentEndpoint + KeyParameter + apiKey
  }

  /** The API key read back from such a URL. */
  function ApiKeyOf(url: string): Option<string> {
    var n := |GenerateContentEndpoint| + |KeyParameter|;
    if |url| >= n && url[..n] == GenerateContentEndpoint + KeyParameter then Some(url[n..]) else None
  }

  lemma ApiKeyRoundTrip(apiKey: string)
    ensures ApiKeyOf(GenerateContentUrl(apiKey)) == Some(apiKey)
  {
    var url := GenerateContentUrl(apiKey);
    var n := |GenerateContentEndpoint| + |KeyParameter|;
    assert url[..n] == GenerateContentEndpoint + KeyParameter;
    assert url[n..] == apiKey;
  }

  /** The fixed wording around the issue id and description in the prompt. */
  const PromptHead := "Crea un nombre de rama para un issue con ID "
  const PromptMiddle := " y descripción '"
  const PromptTail := "'. \n        El nombre de la rama debe seguir este formato:\n        feature/<issue_id>-<descripcion_corta>\n        - <issue_id> es el número del issue\n        - <descripcion_corta> debe estar en minúsculas, sin acentos ni caracteres especiales, y con guiones en lugar de espacios.\n        Solo responde con el nombre de la rama, nada más."

  predicate Occurs(s: string, at: nat, part: string) {
    at + |part| <= |s| && s[at..at + |part|] == part
  }

  /** The prompt asking for a branch name; it quotes the id and the description. */
  function BranchNamePrompt(issueId: string, description: string): (prompt: string)
    ensures Occurs(prompt, |PromptHead|, issueId)
    ensures Occurs(prompt, |PromptHead| + |issueId| + |PromptMiddle|, description)
  {
    var prompt := PromptHead + issueId + PromptMiddle + description + PromptTail;
    var at := |PromptHead| + |issueId| + |PromptMiddle|;
    assert prompt[at..at + |description|] == description;
    prompt
  }

  /** The request body: one content holding one part whose text is the prompt. */
  function BranchNameRequest(issueId: string, description: string): (req: GeminiRequest)
    ensures |req.contents| == 1 && |req.contents[0].parts| == 1
    ensures req.contents[0].parts[0].text == BranchNamePrompt(issueId, description)
  {
    GeminiRequest([GeminiContent([GeminiPart(BranchNamePrompt(issueId, description))])])
  }

  /** The prompt of a request that has exactly one content with exactly one part. */
  function SinglePrompt(req: GeminiRequest): Option<string> {
    if |req.contents| == 1 && |req.contents[0].parts| == 1 then Some(req.contents[0].parts[0].text) else None
  }

  /** The request carries the prompt and nothing else, and the prompt quotes
      both the issue id and the description. */
  lemma BranchNameRequestCarriesPrompt(issueId: string, description: string)
    ensures SinglePrompt(BranchNameRequest(issueId, description)) == Some(BranchNamePrompt(issueId, description))
    ensures exists i :: Occurs(BranchNamePrompt(issueId, description), i, issueId)
    ensures exists j :: Occurs(BranchNamePrompt(issueId, description), j, description)
  {
    var p := BranchNamePrompt(issueId, description);
    assert Occurs(p, |PromptHead|, issueId);
    assert Occurs(p, |PromptHead| + |issueId| + |PromptMiddle|, description);
  }

  // ------------------------------------------------------------- response

  datatype GeminiPartResponse = GeminiPartResponse(text: string)
  datatype GeminiContentResponse = GeminiContentResponse(parts: seq<GeminiPartResponse>)
  datatype GeminiCandidate = GeminiCandidate(content: GeminiContentResponse)
  datatype GeminiError = GeminiError(message: string)

  /** A decoded answer; a missing `candidates` member decodes as the empty
      list and a missing `error` member as `None`. */
  datatype GeminiResponse = GeminiResponse(candidates: seq<GeminiCandidate>, error: Option<GeminiError>)

  const ApiErrorPrefix := "Gemini API error: "
  const NoCandidates := "La respuesta de Gemini no tiene candidatos. Verifica tu API Key o tu request."

  /** The branch name read from a decoded answer: an error payload wins, no
      candidates is an error, otherwise the first part of the first candidate,
      trimmed. An empty first `parts` list panics in the source. */
  function BranchNameFromResponse(resp: GeminiResponse): (r: Result<string>)
    ensures resp.error.Some? ==> r == Err(Message(ApiErrorPrefix + resp.error.value.message))
    ensures resp.error.None? && resp.candidates == [] ==> r == Err(Message(NoCandidates))
    ensures r == Err(MissingPart) <==> resp.error.None? && resp.candidates != [] && resp.candidates[0].content.parts == []
    ensures resp.error.None? && resp.candidates != [] && resp.candidates[0].content.parts != [] ==>
              r == Ok(Trim(resp.candidates[0].content.parts[0].text))
    ensures r.Ok? ==> Trimmed(r.value) && Trim(r.value) == r.value
    ensures r.Ok? ==> exists i, j :: 0 <= i <= j <= |resp.candidates[0].content.parts[0].text|
                                     && r.value == resp.candidates[0].content.parts[0].text[i..j]
  {
    if resp.error.Some? then Err(Message(ApiErrorPrefix + resp.error.value.message))
    else if resp.candidates == [] then Err(Message(NoCandidates))
    else if resp.candidates[0].content.parts == [] then Err(MissingPart)
    else
      var name := Trim(resp.candidates[0].content.parts[0].text);
      TrimIdempotent(resp.candidates[0].content.parts[0].text);
      Ok(name)
  }

  /** Only the first part of the first candidate is read: appending candidates
      or parts after it changes nothing. */
  lemma OnlyFirstPartIsRead(first: string, moreParts: seq<GeminiPartResponse>, moreCandidates: seq<GeminiCandidate>)
    ensures BranchNameFromResponse(GeminiResponse(
              [GeminiCandidate(GeminiContentResponse([GeminiPartResponse(first)] + moreParts))] + moreCandidates, None))
            == Ok(Trim(first))
  {
  }

  /** An answer whose name is already wrapped in whitespace yields exactly the name. */
  lemma PaddedNameIsUnwrapped(lead: string, name: string, trail: string)
    requires AllWhitespace(lead) && AllWhitespace(trail) && Trimmed(name)
    ensures BranchNameFromResponse(GeminiResponse(
              [GeminiCandidate(GeminiContentResponse([GeminiPartResponse(lead + name + trail)]))], None))
            == Ok(name)
  {
    TrimUnwraps(lead, name, trail);
  }

  /** An error payload decides the outcome whatever the candidates say. */
  lemma ErrorPayloadWins(candidates: seq<GeminiCandidate>, message: string)
    ensures BranchNameFromResponse(GeminiResponse(candidates, Some(GeminiError(message))))
            == Err(Message(ApiErrorPrefix + message))
  {
  }
}
