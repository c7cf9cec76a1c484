/** `fetch_highlights` and `fetch_live_scores` of main.py, with the HTTP exchange itself taken
    as an input: either the request failed (a `RequestException`: no connection, a timeout, a
    non-2xx status), or a JSON body arrived, whose `response` key may be missing. */
module Feed {
  import opened Wrappers
  import opened Render

  datatype Response<T> = RequestFailed | Received(response: Option<seq<T>>)

  /** `response.json().get('response', [])`, or `[]` after a failed request. */
  function Payload<T>(r: Response<T>): seq<T> {
    match r
    case RequestFailed => []
    case Received(body) => body.GetOr([])
  }

  /** `fetch_highlights`: never raises; a failed request gives no highlights. */
  function FetchHighlights(r: Response<Highlight>): (hs: seq<Highlight>)
    ensures r.RequestFailed? ==> hs == []
    ensures r.Received? && r.response.None? ==> hs == []
    ensures r.Received? && r.response.Some? ==> hs == r.response.value
  {
    Payload(r)
  }

  /** The environment variable `API_FOOTBALL_KEY` is falsy when unset or empty. */
  predicate HasApiKey(apiKey: Option<string>) {
    apiKey.Some? && apiKey.value != ""
  }

  /** `fetch_live_scores`: without an API key no request is made and the list is empty;
      otherwise the outcome of the one request decides. */
  function FetchLiveScores(apiKey: Option<string>, r: Response<LiveMatch>): (matches: seq<LiveMatch>)
    ensures !HasApiKey(apiKey) ==> matches == []
    ensures HasApiKey(apiKey) ==> matches == Payload(r)
  {
    if !HasApiKey(apiKey) then [] else Payload(r)
  }
}
