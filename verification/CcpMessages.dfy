/** The values exchanged by the Connector-to-Connector Protocol. */
module CcpMessages {
  import opened Basics

  datatype RouteProp = RouteProp(
    isOptional: bool, isTransitive: bool, isPartial: bool, id: nat, isUtf8: bool, value: Bytes)

  datatype Route = Route(prefix: Text, path: seq<Text>, auth: Bytes, props: seq<RouteProp>)

  datatype RouteUpdate = RouteUpdate(
    tableId: Bytes, currentEpoch: nat, fromEpoch: nat, toEpoch: nat, holdDownTime: nat,
    speaker: Text, newRoutes: seq<Route>, withdrawnRoutes: seq<Text>)

  datatype Mode = Idle | Sync

  datatype RouteControl = RouteControl(
    mode: Mode, lastKnownTableId: Bytes, lastKnownEpoch: nat, features: seq<Text>)

  const DEFAULT_ROUTE_EXPIRY_TIME: nat := 30000

  /** The table id of a control request that knows nothing yet. */
  function DummyTableId(): (id: Bytes)
    ensures |id| == 16
  {
    seq(16, i => 0)
  }

  function ZeroAuth(): (a: Bytes)
    ensures |a| == 32 && forall i :: 0 <= i < 32 ==> a[i] == 0
  {
    seq(32, i => 0)
  }
}
