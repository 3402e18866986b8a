/** The record of one interval: a label and a duration in seconds. */
module TimerDataModel {

  /** `timeInSeconds` is a Kotlin `Long`; every value the app builds is far
      below 2^63, so it is an unbounded `int` here. */
  datatype TimerData = TimerData(name: string, timeInSeconds: int)
}
