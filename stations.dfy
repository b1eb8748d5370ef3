/** The `stations` HTTP handler: a method guard, then the static station list. */
module StationsEndpoint {
  import opened Http

  function Stations(httpMethod: string, stations: seq<Station>): (r: Response)
    ensures r.status == 200 <==> httpMethod == "GET"
    ensures httpMethod == "GET" ==> r.body == StationList(stations)
    ensures httpMethod != "GET" ==> r == Response(403, Text("Can't" + httpMethod + " this function"))
  {
    if httpMethod != "GET" then Response(403, Text("Can't" + httpMethod + " this function"))
    else Response(200, StationList(stations))
  }
}
