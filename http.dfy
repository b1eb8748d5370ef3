/** The responses the HTTP handlers send. */
module Http {

  /** One entry of the static station reference list; its contents are not modelled. */
  datatype Station = Station(entry: string)

  /** What `res.send` is given: a text message, the station list, or the upstream response data. */
  datatype Body = Text(text: string) | StationList(stations: seq<Station>) | Data(payload: string)

  /** `res.status(status).send(body)`. */
  datatype Response = Response(status: nat, body: Body)
}
