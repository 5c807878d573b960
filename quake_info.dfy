/** The earthquake record of quakeInfo.java: four values fixed at construction. */
module QuakeInfoRecord {

  /** Java's long: a signed 64-bit integer. */
  type Long = x: int | -0x8000_0000_0000_0000 <= x < 0x8000_0000_0000_0000

  /**
   * One earthquake: its magnitude, the place text, the time in milliseconds
   * since the epoch and the URL of its detail page. The destructors are the
   * getters getMagnitude, getLocation, getTimeInMillisec and getUrl.
   */
  datatype QuakeInfo = QuakeInfo(magnitude: real, location: string, timeInMillisec: Long, url: string)

  /** Each getter returns exactly the value handed to the constructor. */
  lemma GettersReturnConstructorArguments(magnitude: real, location: string, timeInMillisec: Long, url: string)
    ensures var q := QuakeInfo(magnitude, location, timeInMillisec, url);
      q.magnitude == magnitude && q.location == location &&
      q.timeInMillisec == timeInMillisec && q.url == url
  {
  }

  /** The four getters determine the record: it holds no other state and never changes. */
  lemma RecordDeterminedByGetters(q: QuakeInfo, p: QuakeInfo)
    ensures q == QuakeInfo(q.magnitude, q.location, q.timeInMillisec, q.url)
    ensures q == p <==>
      q.magnitude == p.magnitude && q.location == p.location &&
      q.timeInMillisec == p.timeInMillisec && q.url == p.url
  {
  }
}
