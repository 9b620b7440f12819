# Water-quality control centre: a Dafny model

Monitoring stations register with a central control service. They can declare
each other neighbours, and they report contamination issues that the service
fans out to the reporting station's direct neighbours. On the station side, a
sensor compares each new reading against three fixed thresholds and sends one
issue report for each threshold it breaches.

The project has four modules:

- `Messages` (`messages.dfy`): the records exchanged over the RPC surface. These are readings, responses, issue reports and notifications. It also holds the status code and details text that a handler sets on its call context, returned here as a value (`Ok`, `NotFound`, `AlreadyExists`).
- `NeighbourGraph` (`neighbour_graph.dfy`): the neighbour map as a value. `AddEdge` is what one `AddNeighbour` call does to the map. The lemmas prove that the map stays well formed, meaning symmetric, with no duplicate in any list, and with every listed id a key. They also prove that the edge insert is idempotent, independent of argument order and append-only.
- `Server` (`server.dfy`): the class `WaterControlCenter`, with the two maps `stations` and `neighbours` as fields and one method per handler. Mutating handlers state their complete new state. `AddNeighbour` follows the source's four guarded updates and is proved equal to `AddEdge`. The file also has three client methods showing what callers can conclude from the handler contracts.
- `Client` (`client.dfy`): the three issue kinds and the exact issue type string each is sent as, the threshold policy `Issues`, a proof that its contract determines its result uniquely, and the class `Sensor`. `Sensor.CheckContaminants` overwrites the sensor's reading and emits one issue report per breached threshold.

Where the design text and the code differ, the model follows the code:

- Notifications are sent in neighbour-list order. The design leaves that order unspecified.
- Issue types travel as the literal strings the sensor sends, `"Turbulance detected"` misspelling included. The design names an enumeration instead. The model keeps an enumeration `Issue` for reasoning and maps each kind to its string with `Text`.
- Self-edges and reports from unknown stations are accepted without complaint, as the code does.
- Each handler is one atomic step. This is the mutual-exclusion behaviour the design asks for; the code runs handlers unguarded on a thread pool.

## Model

| member | source | states |
|---|---|---|
| `Server.WaterControlCenter.constructor` | server.py:9-11 | A new centre has both maps empty and satisfies the neighbour invariant. |
| `Server.WaterControlCenter.GetQualityData` | server.py:13-21 | A registered id returns its stored reading under that id with status Ok. An unknown id returns the all-default response with NOT_FOUND and details "Station X not found". Status is Ok exactly when the id is registered, and the call changes no state. |
| `Server.WaterControlCenter.ReportIssue` | server.py:23-28 | Always acknowledges with success and the message "Issue reported: T at S". It triggers exactly the fan-out of NotifyNeighbours (none for an unknown station) and changes no state. |
| `Server.WaterControlCenter.NotifyNeighbours` | server.py:30-36 | Emits one notification per entry of the station's neighbour list, in list order, each carrying the reporter and issue type. It emits none when the station has no entry. Under the invariant, no recipient repeats and every recipient lists the reporter as its own neighbour. |
| `Server.WaterControlCenter.AddNeighbour` | server.py:38-52 | The new neighbour map is `AddEdge` of the old one, so both ends are keys and each lists the other. Keys grow by exactly the two ends and old lists are prefixes of the new ones. Other keys are unchanged, the invariant is preserved, and the call always succeeds. `stations` lies outside the method's frame, so it cannot change. |
| `Server.WaterControlCenter.RegisterStation` | server.py:54-62 | A new id is inserted with reading (7.0, 5.0, 0.0), the size grows by one, the response reports success and status is Ok. An existing id leaves `stations` unchanged, returns success=false and sets ALREADY_EXISTS with its details. `neighbours` is never touched. |
| `Server.RegisterThenQuery` | server.py:56-57 | After a successful registration, a query for the same id returns (X, 7.0, 5.0, 0.0) with status Ok. |
| `Server.RegisterTwice` | server.py:56-62 | Registering one id twice makes the second call fail with ALREADY_EXISTS, and the registry grows by at most that one id. |
| `Server.AddNeighbourRepeated` | server.py:47-50 | Calling AddNeighbour(a, b), then (a, b) again, then (b, a) leaves the map as the first call left it. |
| `NeighbourGraph.AddEdge` | server.py:42-50 | Both ends of the edge are keys of the resulting map. |
| `NeighbourGraph.AppendIfAbsentFacts` | server.py:47-50 | Guarded append: the element ends up in the list, membership grows by exactly that element, the list stays duplicate-free, and the old list is a prefix of the new one, at most one longer. |
| `NeighbourGraph.AddEdgeConnects` | server.py:42-50 | After AddEdge(g, a, b), a and b are keys, b is in a's list and a is in b's list. |
| `NeighbourGraph.AddEdgeLists` | server.py:42-50 | The keys become the old keys plus both ends. Each end's list is its old list, or empty if it had none, with the other end appended only if missing. Every other key keeps its list. |
| `NeighbourGraph.AddEdgeAppendsOnly` | server.py:47-50 | Every old list is a prefix of its new list and grows by at most one element, so contents and order are preserved. |
| `NeighbourGraph.AddEdgePresent` | server.py:47-50 | On a map that already records the edge in both directions, AddEdge changes nothing. |
| `NeighbourGraph.AddEdgeArgumentOrder` | server.py:42-50 | AddEdge(g, a, b) equals AddEdge(g, b, a). |
| `NeighbourGraph.AddEdgeIdempotent` | server.py:47-50 | Repeating AddEdge with the same pair or the reversed pair leaves its result unchanged. |
| `NeighbourGraph.AddEdgeSelf` | server.py:47-50 | On a well-formed map, the self-edge AddEdge(g, a, a) leaves a in its own list exactly once. |
| `NeighbourGraph.AddEdgeWellFormed` | server.py:42-50 | AddEdge preserves symmetry, closure (every listed id is a key) and duplicate-freedom of every list. |
| `NeighbourGraph.AddEdgeSummary` | server.py:42-50 | The facts one AddNeighbour call needs together: links, key set, prefixes, untouched keys and preservation of the invariant. |
| `NeighbourGraph.AddEdgesWellFormed` | server.py:38-52 | Any sequence of AddNeighbour calls from a well-formed map yields a well-formed map. |
| `NeighbourGraph.ReachableWellFormed` | server.py:11 | Every neighbour map reachable from the initial empty map is symmetric, duplicate-free and closed. |
| `Client.TextInjective` | client.py:67-75 | The three issue kinds are sent as three distinct strings. |
| `Client.Issues` | client.py:64-77 | Each kind is raised iff its threshold holds: pollution iff pollutants > 90, pH imbalance iff pH < 6 or pH > 8, turbulence iff turbidity > 9. The kinds come in check order with no repeats, at most three. |
| `Client.IssueTypes` | client.py:66-77 | One string per raised kind, in the same order. "Pollution detected" is sent iff pollutants > 90, "pH imbalance detected" iff pH < 6 or pH > 8, "Turbulance detected" iff turbidity > 9. |
| `Client.InCheckOrderIsSelected` | client.py:66-77 | A list of issue kinds in check order is fixed by which of the three kinds it contains. |
| `Client.IssuesUnique` | client.py:66-77 | Any list of kinds in check order that contains each kind iff its threshold is breached equals Issues(r), so the policy has exactly one outcome. |
| `Client.PollutionBoundary` | client.py:66 | Pollutants exactly 90 raise no pollution issue, because the comparison is strict. |
| `Client.PhBoundary` | client.py:70 | pH exactly 6 or exactly 8 raises no pH issue. |
| `Client.PollutionOnlyExample` | client.py:66-77 | pollutants=95, pH=7.0, turbidity=2 sends exactly ["Pollution detected"]. |
| `Client.PhOnlyExample` | client.py:70-73 | pH=9.0 with the other values in range sends exactly ["pH imbalance detected"]. |
| `Client.AllBreachedExample` | client.py:66-77 | A reading breaching all three thresholds sends all three strings, in the order pollution, pH, turbidity. |
| `Client.NoneBreachedExample` | client.py:66-77 | The default reading (7.0, 5.0, 0.0) sends nothing. |
| `Client.Sensor.constructor` | client.py:56-59 | A sensor keeps its id and station and starts with the first reading it is given. |
| `Client.Sensor.CheckContaminants` | client.py:64-80 | The sample becomes the sensor's stored reading. One issue report is sent per element of Issues(sample), in that order, each carrying that kind's string, naming the sensor's station and stamped with the evaluation time. |

## Left out

- RPC transport: channels, stubs, the servicer registration, `serve()`, the listening port, and the catching and logging of `grpc.RpcError` on the station side (server.py:64-73, client.py:15-16, 22-36, 79-85). A status code and its details text are returned values.
- Generated protocol-buffer code (water_quality_pb2.py). Messages are plain records. Rounding of pH, turbidity and pollutants to 32-bit floats in responses is not modelled; readings are reals.
- Concurrency: the server's worker pool, the per-sensor threads and join barrier of `simulate_sensors`, the cooperative `stopping` flag and `stop()`, and the interrupt loop in `main` (client.py:38-52, 110-122). Handlers are atomic sequential methods.
- Randomness: `get_sensor_data` draws readings at random (client.py:61-62). `CheckContaminants` and the `Sensor` constructor take the reading as a parameter instead.
- Clock: `time.time()` and `time.sleep` (client.py:49, 80). `CheckContaminants` takes one timestamp `now` for all reports of an evaluation, whereas the source reads the clock once per report.
- Delivery of notifications: the source builds a `NeighbourNotification` for each neighbour and only logs it. The model returns the built notifications as a sequence.
- `Sensor.print_data` (client.py:87-94): an RPC call plus logging. It also refers to attributes a `Sensor` does not have.
- `WaterMonitoringStation.register_station` and `add_neighbour` (client.py:22-36): thin RPC wrappers whose effect is the server handlers above.
- Command-line handling and all `print` logging (client.py:96-107, server.py:33, 68).
- `ReportIssue` accepts the report's timestamp and, like the source, does nothing with it.
