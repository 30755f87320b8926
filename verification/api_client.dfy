/** The two pieces of the web client's API module with logic of their own:
    the base-URL normalisation and the query parameters of the slot
    listing request. */
module ApiClient {
  import opened Common
  import opened Text

  /** The address used when `VITE_API_URL` is unset or empty. */
  const DEFAULT_URL: string := "http://127.0.0.1:3000"

  predicate EndsWithApi(url: string)
  {
    EndsWith(url, "/api") || EndsWith(url, "/api/")
  }

  /** `getBaseURL`: `env` is `VITE_API_URL`, empty when unset. The result
      always ends in `/api` or `/api/`, extends the configured address, and
      leaves an address that already ends that way alone. */
  function BaseUrl(env: string): (r: string)
    ensures EndsWithApi(r)
    ensures var url := if env == "" then DEFAULT_URL else env;
            && url <= r
            && (EndsWithApi(url) ==> r == url)
            && (!EndsWithApi(url) && EndsWith(url, "/") ==> r == url + "api")
            && (!EndsWithApi(url) && !EndsWith(url, "/") ==> r == url + "/api")
    ensures env == "" ==> r == "http://127.0.0.1:3000/api"
  {
    var url := if env == "" then DEFAULT_URL else env;
    if !EndsWithApi(url) then
      var r := if EndsWith(url, "/") then url + "api" else url + "/api";
      assert EndsWith(r, "/api") by {
        if EndsWith(url, "/") {
          assert r[|r| - 4..] == url[|url| - 1..] + "api";
        }
      }
      r
    else url
  }

  /** Feeding the result back in changes nothing. */
  lemma BaseUrlIdempotent(env: string)
    ensures BaseUrl(BaseUrl(env)) == BaseUrl(env)
  {
    var r := BaseUrl(env);
    assert r != "" by {
      assert EndsWithApi(r);
    }
  }

  /** `fetchSlots`: the time window is sent only when both ends are given
      and non-empty, otherwise no parameters at all. */
  function SlotQuery(startTime: Option<string>, endTime: Option<string>): (params: Option<(string, string)>)
    ensures params.Some? <==> startTime.Some? && startTime.value != "" && endTime.Some? && endTime.value != ""
    ensures params.Some? ==> params.value == (startTime.value, endTime.value)
  {
    if startTime.Some? && startTime.value != "" && endTime.Some? && endTime.value != "" then
      Some((startTime.value, endTime.value))
    else None
  }

  /** One end alone never narrows the listing. */
  lemma HalfWindowSendsNothing(startTime: Option<string>, endTime: Option<string>)
    requires startTime.None? || endTime.None?
    ensures SlotQuery(startTime, endTime).None?
  {
  }
}
