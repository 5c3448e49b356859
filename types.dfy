/** The enums and records exchanged between the remote analyzer and the
    client (types.ts). Floating-point fields the client never reads
    (`priority`, `confidence`) are not represented. */
module Types {
  import opened Wrappers
  import Seqs

  datatype HazardRisk = Low | Medium | High

  datatype GuidanceType = Hazard | Navigation | Info

  datatype Direction = Left | Center | Right | DirectionUnknown

  datatype Distance = Near | MidRange | Far | DistanceUnknown

  datatype SuggestedAction = Stop | Slow | StepLeft | StepRight | Proceed | ActionUnknown

  /** One structured hazard or navigation instruction. */
  datatype GuidanceItem = GuidanceItem(
    kind: GuidanceType,
    message: string,
    direction: Direction,
    distance: Distance,
    action: SuggestedAction)

  /** One analysis result. `dontRepeatForSeconds` is `None` when the field
      is missing from the parsed JSON. */
  datatype VisionResponse = VisionResponse(
    timestamp: string,
    overallRisk: HazardRisk,
    guidance: seq<GuidanceItem>,
    dontRepeatForSeconds: Option<int>)

  /** One line of the heads-up log; `id` and `time` are opaque inputs. */
  datatype LogEntry = LogEntry(id: string, time: string, message: string, risk: HazardRisk)

  /** The messages of a list of items, in order. */
  function Messages(items: seq<GuidanceItem>): seq<string>
  {
    Seqs.Map(items, (item: GuidanceItem) => item.message)
  }
}
