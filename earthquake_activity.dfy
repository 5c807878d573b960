/**
 * EarthquakeActivity.java: the background task that asks for the feed, the
 * callback that puts its result into the adapter, and the click on a list
 * item, each as its sequential effect.
 */
module EarthquakeActivityModel {
  import opened Wrappers
  import opened JavaLang
  import opened QuakeInfoRecord
  import opened QuakeAdapterModel

  /** The USGS query: the ten latest earthquakes of magnitude 6 or more, newest first. */
  const UsgsRequestUrl: string :=
    "http://earthquake.usgs.gov/fdsnws/event/1/query?format=geojson&eventtype=earthquake&orderby=time&minmag=6&limit=10"

  /**
   * EarthquakeAsyncTask.doInBackground. The varargs array of possibly-null
   * strings is a sequence of options; QueryUtils.fetchEarthquakeData, whose
   * body is not part of this model, is the parameter fetch, its null result
   * None. fetch is a pure function and has no effect of its own here:
   * requested records the call, the URL fetch was called with, or None when
   * the guard returns before any request is made.
   */
  method DoInBackground(url: seq<Option<string>>, fetch: string -> Option<seq<QuakeInfo>>)
    returns (result: Option<seq<QuakeInfo>>, requested: Option<string>)
    ensures (|url| < 1 || url[0].None?) ==> requested == None && result == None
    ensures |url| >= 1 && url[0].Some? ==>
      requested == Some(url[0].value) && result == fetch(url[0].value)
  {
    if |url| < 1 || url[0].None? {
      return None, None;
    }
    var earthquake := fetch(url[0].value);
    return earthquake, Some(url[0].value);
  }

  class EarthquakeActivity {
    /** mAdapter: the adapter of the list view. */
    var adapter: QuakeAdapter

    /** onCreate: the adapter is made over a new, empty list. */
    constructor ()
      ensures fresh(adapter) && adapter.items == []
    {
      adapter := new QuakeAdapter([]);
    }

    /**
     * EarthquakeAsyncTask.onPostExecute: the adapter is cleared, then given
     * the result when it is a non-empty list. What it showed before is gone
     * in every case.
     */
    method OnPostExecute(earthquakeResult: Option<seq<QuakeInfo>>)
      modifies adapter
      ensures earthquakeResult.None? ==> adapter.items == []
      ensures earthquakeResult.Some? && earthquakeResult.value == [] ==> adapter.items == []
      ensures earthquakeResult.Some? && earthquakeResult.value != [] ==>
        adapter.items == earthquakeResult.value
      ensures forall q :: q in adapter.items ==> earthquakeResult.Some? && q in earthquakeResult.value
    {
      adapter.Clear();
      if earthquakeResult.Some? && earthquakeResult.value != [] {
        adapter.AddAll(earthquakeResult.value);
      }
    }

    /**
     * AsyncTask.execute(url) as one sequential step: doInBackground, then
     * onPostExecute with its result. The adapter ends up showing the fetched
     * list, or nothing when there was no request or no list.
     */
    method Execute(url: seq<Option<string>>, fetch: string -> Option<seq<QuakeInfo>>)
      returns (requested: Option<string>)
      modifies adapter
      ensures (|url| < 1 || url[0].None?) ==> requested == None && adapter.items == []
      ensures |url| >= 1 && url[0].Some? ==>
        requested == Some(url[0].value) && adapter.items == fetch(url[0].value).GetOr([])
    {
      var result;
      result, requested := DoInBackground(url, fetch);
      OnPostExecute(result);
    }

    /** The task onCreate starts: one request, for the USGS query, and its records replace the list. */
    method ExecuteUsgsRequest(fetch: string -> Option<seq<QuakeInfo>>) returns (requested: Option<string>)
      modifies adapter
      ensures requested == Some(UsgsRequestUrl)
      ensures adapter.items == fetch(UsgsRequestUrl).GetOr([])
    {
      requested := Execute([Some(UsgsRequestUrl)], fetch);
    }

    /**
     * onItemClick: the URL of the record at the clicked position, the one
     * handed to Uri.parse; getItem throws for a position outside the list.
     */
    method OnItemClick(position: int) returns (uri: Result<string, IndexOutOfBounds>)
      ensures uri.Success? <==> 0 <= position < |adapter.items|
      ensures uri.Success? ==> uri.value == adapter.items[position].url
      ensures uri.Failure? ==> uri.error == IndexOutOfBounds(position, |adapter.items|)
    {
      var currentEarthquake := adapter.GetItem(position);
      match currentEarthquake
      case Success(q) => uri := Success(q.url);
      case Failure(e) => uri := Failure(e);
    }
  }
}
