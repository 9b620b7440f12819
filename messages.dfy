/**
 * The records exchanged between a monitoring station and the water control
 * centre (the messages of water_quality.proto), and the status a handler
 * attaches to its response in place of the RPC context's status code.
 */
module Messages {

  /** One water-quality reading: pH, turbidity and pollutant level. */
  datatype Reading = Reading(pH: real, turbidity: real, pollutants: real)

  /** The reading a station is given when it registers. */
  const DefaultReading: Reading := Reading(7.0, 5.0, 0.0)

  /** Answer to a quality-data query. */
  datatype StationResponse = StationResponse(stationId: string, pH: real, turbidity: real, pollutants: real)

  /** A response message left at its default field values (empty id, zero reading). */
  const EmptyStationResponse: StationResponse := StationResponse("", 0.0, 0.0, 0.0)

  /** Answer to a registration. */
  datatype RegisterStationResponse = RegisterStationResponse(message: string, success: bool)

  /** Generic acknowledgement, used by issue reports and neighbour edges. */
  datatype StatusResponse = StatusResponse(message: string, success: bool)

  /** An issue raised by a sensor of the station `stationId`. */
  datatype IssueReport = IssueReport(stationId: string, issueType: string, timestamp: real)

  /** One notification the control centre addresses to `neighbourId` about an issue at `stationId`. */
  datatype Notification = Notification(neighbourId: string, stationId: string, issueType: string)

  /** The status codes a handler can set on its call. */
  datatype StatusCode = Ok | NotFound | AlreadyExists

  /** A status code together with the details text set beside it. */
  datatype RpcStatus = RpcStatus(code: StatusCode, details: string)

  /** The status of a call whose handler sets no code. */
  const OkStatus: RpcStatus := RpcStatus(Ok, "")
}
