/** The photo record the planner and the relocator work on. */
module Media {
  import opened Wrappers

  /**
    A capture date as chrono reports it: signed year, month and day. Chrono
    keeps month and day in 1..12 and 1..31; nothing here depends on that.
   */
  datatype Date = Date(year: int, month: nat, day: nat)

  /**
    A discovered media file: where it is now, its capture date when one could be
    read, and the destination assigned by the planner.
   */
  datatype Photo = Photo(path: Option<string>, date: Option<Date>, newPath: Option<string>)
}
