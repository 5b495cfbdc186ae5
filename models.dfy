/**
 * The two plain records the decision engine builds for every sensor row:
 * the signal light's state and the crossing (lane) record, plus the
 * pair of them that the downstream rules consume.
 */
module Models {
  import opened Wrappers

  /** Resolved colour of a signal light. */
  datatype Color = Red | Yellow | Green

  /** Label of an average speed or an average acceleration. */
  datatype Level = Low | Medium | High

  /** Congestion category of a lane; Error marks a row no threshold rule matched. */
  datatype Density = Free | Low | Medium | High | Error

  /** A light's colour and the timer value read with it. */
  datatype Light = Light(color: Color, timer: int)

  /**
   * One lane at one crossing at one time.  The labels are optional because
   * a row that matches no threshold rule leaves them as they were; before
   * any row has set them they are unassigned.
   */
  datatype Crossing = Crossing(
    crossingId: string,
    laneId: string,
    time: string,
    avgSpeed: real,
    avgAcc: real,
    textSpeed: Option<Level>,
    textAcc: Option<Level>,
    density: Density,
    accident: bool)

  /** The pair {Light, Crossing} appended once per input row. */
  datatype Entity = Entity(light: Light, crossing: Crossing)
}
