/**
 * The `schedules` HTTP handler: a method guard, then a `locationListQuery` record
 * built field by field and handed to the Realtime Trains client.
 */
module SchedulesEndpoint {
  import opened Js
  import opened Http

  /**
   * The query record. `station` and `toStation` are always keys of the record
   * (their values may be `undefined`); `time` and `date` are `None` when the key is absent.
   */
  datatype LocationListQuery = LocationListQuery(station: Param, toStation: Param, time: Param, date: Param)

  /** The record the handler builds from the request's `start`, `end`, `date` and `time` parameters. */
  predicate QueryFor(q: LocationListQuery, start: Param, end: Param, date: Param, time: Param)
  {
    && q.station == start
    && q.toStation == end
    && (q.time.Some? <==> Truthy(time))
    && (q.time.Some? ==> q.time == time)
    && (q.date.Some? <==> Truthy(date))
    && (q.date.Some? ==> q.date == date)
  }

  /** How the Realtime Trains client answers `getLocationList`: the response's `data`, or an error. */
  datatype Fetch = Fetched(data: string) | FetchFailed(error: string)

  method BuildLocationListQuery(start: Param, end: Param, date: Param, time: Param) returns (q: LocationListQuery)
    ensures QueryFor(q, start, end, date, time)
    ensures q.time.Some? ==> q.time.value != ""
    ensures q.date.Some? ==> q.date.value != ""
  {
    q := LocationListQuery(start, end, None, None);
    if Truthy(time) {
      q := q.(time := time);
    }
    if Truthy(date) {
      q := q.(date := date);
    }
  }

  /**
   * Handles one `schedules` request. `rtt` stands for the Realtime Trains client;
   * `sent` is the query passed to it, `None` when no call is made.
   */
  method Schedules(httpMethod: string, start: Param, end: Param, date: Param, time: Param,
                   rtt: LocationListQuery -> Fetch)
    returns (r: Response, sent: Option<LocationListQuery>)
    ensures httpMethod != "GET" ==>
              r == Response(403, Text("Can't" + httpMethod + " this function")) && sent.None?
    ensures httpMethod == "GET" ==> sent.Some? && QueryFor(sent.value, start, end, date, time)
    ensures httpMethod == "GET" ==>
              r == match rtt(sent.value)
                   case Fetched(data) => Response(200, Data(data))
                   case FetchFailed(_) => Response(500, Text("Error querying schedules! "))
  {
    if httpMethod != "GET" {
      return Response(403, Text("Can't" + httpMethod + " this function")), None;
    }
    var q := BuildLocationListQuery(start, end, date, time);
    sent := Some(q);
    match rtt(q)
    case Fetched(data) =>
      r := Response(200, Data(data));
    case FetchFailed(_) =>
      r := Response(500, Text("Error querying schedules! "));
  }

  /** A GET without a truthy `date` or `time` sends a query holding only `station` and `toStation`. */
  lemma QueryWithoutOptionalFields(q: LocationListQuery, start: Param, end: Param, date: Param, time: Param)
    requires QueryFor(q, start, end, date, time)
    requires !Truthy(date) && !Truthy(time)
    ensures q == LocationListQuery(start, end, None, None)
  {
  }
}
