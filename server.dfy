/**
 * The water control centre: a registry of stations with their latest
 * reading and an undirected neighbour map, updated in place by the RPC
 * handlers. Each handler runs as one atomic step; the status an RPC context
 * would carry is returned beside the response.
 */
module Server {
  import opened Messages
  import opened NeighbourGraph

  class WaterControlCenter {
    var stations: map<string, Reading>
    var neighbours: map<string, seq<string>>

    /** Symmetric adjacency, no duplicate in any list, every listed id a key. */
    ghost predicate Valid()
      reads this
    {
      WellFormed(neighbours)
    }

    /** The neighbour list of `stationId`, empty when it has none. */
    function Neighbours(stationId: string): seq<string>
      reads this
    {
      ListOf(neighbours, stationId)
    }

    constructor ()
      ensures Valid()
      ensures stations == map[] && neighbours == map[]
    {
      stations := map[];
      neighbours := map[];
    }

    /** The stored reading of a registered station, or NOT_FOUND and an empty response. */
    method GetQualityData(stationId: string) returns (response: StationResponse, status: RpcStatus)
      ensures stationId in stations <==> status.code == Ok
      ensures stationId in stations ==>
        var reading := stations[stationId];
        response == StationResponse(stationId, reading.pH, reading.turbidity, reading.pollutants)
        && status == OkStatus
      ensures stationId !in stations ==>
        response == EmptyStationResponse
        && status == RpcStatus(NotFound, "Station " + stationId + " not found")
    {
      if stationId in stations {
        var reading := stations[stationId];
        response := StationResponse(stationId, reading.pH, reading.turbidity, reading.pollutants);
        status := OkStatus;
      } else {
        status := RpcStatus(NotFound, "Station " + stationId + " not found");
        response := EmptyStationResponse;
      }
    }

    /**
     * One notification per entry of the reporting station's neighbour list,
     * in list order; none when the station has no entry. Only direct
     * neighbours are notified.
     */
    method NotifyNeighbours(stationId: string, issueType: string) returns (sent: seq<Notification>)
      ensures |sent| == |Neighbours(stationId)|
      ensures forall i :: 0 <= i < |sent| ==>
        sent[i] == Notification(Neighbours(stationId)[i], stationId, issueType)
      ensures Valid() ==> forall i, j :: 0 <= i < j < |sent| ==> sent[i].neighbourId != sent[j].neighbourId
      ensures Valid() ==> forall i :: 0 <= i < |sent| ==>
        sent[i].neighbourId in neighbours && stationId in neighbours[sent[i].neighbourId]
    {
      sent := [];
      if stationId in neighbours {
        var list := neighbours[stationId];
        for k := 0 to |list|
          invariant |sent| == k
          invariant forall i :: 0 <= i < k ==> sent[i] == Notification(list[i], stationId, issueType)
        {
          sent := sent + [Notification(list[k], stationId, issueType)];
        }
      }
    }

    /** Acknowledges an issue report after fanning it out to the station's neighbours; never fails. */
    method ReportIssue(report: IssueReport) returns (response: StatusResponse, sent: seq<Notification>)
      ensures response == StatusResponse("Issue reported: " + report.issueType + " at " + report.stationId, true)
      ensures |sent| == |Neighbours(report.stationId)|
      ensures forall i :: 0 <= i < |sent| ==>
        sent[i] == Notification(Neighbours(report.stationId)[i], report.stationId, report.issueType)
      ensures report.stationId !in neighbours ==> sent == []
    {
      sent := NotifyNeighbours(report.stationId, report.issueType);
      response := StatusResponse("Issue reported: " + report.issueType + " at " + report.stationId, true);
    }

    /** Records `stationId` and `neighbourId` as neighbours of each other; always succeeds. */
    method AddNeighbour(stationId: string, neighbourId: string) returns (response: StatusResponse)
      modifies this`neighbours
      ensures neighbours == AddEdge(old(neighbours), stationId, neighbourId)
      ensures stationId in neighbours && neighbourId in neighbours
      ensures neighbourId in neighbours[stationId] && stationId in neighbours[neighbourId]
      ensures neighbours.Keys == old(neighbours.Keys) + {stationId, neighbourId}
      ensures forall k :: k in old(neighbours) ==> old(neighbours)[k] <= neighbours[k]
      ensures forall k :: k in old(neighbours) && k != stationId && k != neighbourId ==>
        neighbours[k] == old(neighbours)[k]
      ensures old(Valid()) ==> Valid()
      ensures response == StatusResponse(stationId + " and " + neighbourId + " are now neighbours.", true)
    {
      ghost var before := neighbours;
      if stationId !in neighbours {
        neighbours := neighbours[stationId := []];
      }
      assert neighbours == EnsureKey(before, stationId);
      if neighbourId !in neighbours {
        neighbours := neighbours[neighbourId := []];
      }
      ghost var keyed := neighbours;
      assert keyed == EnsureKey(EnsureKey(before, stationId), neighbourId);
      if neighbourId !in neighbours[stationId] {
        neighbours := neighbours[stationId := neighbours[stationId] + [neighbourId]];
      }
      assert neighbours == Link(keyed, stationId, neighbourId);
      if stationId !in neighbours[neighbourId] {
        neighbours := neighbours[neighbourId := neighbours[neighbourId] + [stationId]];
      }
      assert neighbours == AddEdge(before, stationId, neighbourId);
      AddEdgeSummary(before, stationId, neighbourId);
      response := StatusResponse(stationId + " and " + neighbourId + " are now neighbours.", true);
    }

    /** Inserts a new station with the default reading; refuses an id that is already registered. */
    method RegisterStation(stationId: string) returns (response: RegisterStationResponse, status: RpcStatus)
      modifies this`stations
      ensures neighbours == old(neighbours)
      ensures response.success <==> stationId !in old(stations)
      ensures stationId !in old(stations) ==>
        && stations == old(stations)[stationId := DefaultReading]
        && |stations| == |old(stations)| + 1
        && response.message == "Station " + stationId + " registered successfully."
        && status == OkStatus
      ensures stationId in old(stations) ==>
        && stations == old(stations)
        && response.message == "Station " + stationId + " already exists."
        && status == RpcStatus(AlreadyExists, "Station " + stationId + " already registered.")
      ensures old(Valid()) ==> Valid()
    {
      if stationId !in stations {
        stations := stations[stationId := DefaultReading];
        response := RegisterStationResponse("Station " + stationId + " registered successfully.", true);
        status := OkStatus;
      } else {
        status := RpcStatus(AlreadyExists, "Station " + stationId + " already registered.");
        response := RegisterStationResponse("Station " + stationId + " already exists.", false);
      }
    }
  }

  /** A registration that succeeds is visible to a following query, with the default reading. */
  method RegisterThenQuery(center: WaterControlCenter, stationId: string)
    returns (registered: RegisterStationResponse, response: StationResponse, status: RpcStatus)
    modifies center
    ensures registered.success ==>
      response == StationResponse(stationId, 7.0, 5.0, 0.0) && status.code == Ok
  {
    var regStatus;
    registered, regStatus := center.RegisterStation(stationId);
    response, status := center.GetQualityData(stationId);
  }

  /** Registering the same id twice: the second call fails and the registry size does not change. */
  method RegisterTwice(center: WaterControlCenter, stationId: string)
    returns (second: RegisterStationResponse, status: RpcStatus)
    modifies center
    ensures !second.success && status.code == AlreadyExists
    ensures |center.stations| == |old(center.stations)| + (if stationId in old(center.stations) then 0 else 1)
  {
    var first, firstStatus := center.RegisterStation(stationId);
    second, status := center.RegisterStation(stationId);
  }

  /** Repeating AddNeighbour, in either argument order, leaves the neighbour map as the first call left it. */
  method AddNeighbourRepeated(center: WaterControlCenter, a: string, b: string)
    modifies center
    ensures center.neighbours == AddEdge(old(center.neighbours), a, b)
  {
    var r1 := center.AddNeighbour(a, b);
    ghost var once := center.neighbours;
    var r2 := center.AddNeighbour(a, b);
    var r3 := center.AddNeighbour(b, a);
    AddEdgeIdempotent(old(center.neighbours), a, b);
    AddEdgeConnects(once, a, b);
    AddEdgePresent(once, a, b);
    AddEdgePresent(once, b, a);
  }
}
