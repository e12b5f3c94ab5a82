/** A simulation instant: the satellite and every object. */
module Frames {
  import opened Floats
  import opened Records

  datatype Frame = Frame(t: F64, sat: ObjectRecord, objects: seq<ObjectRecord>)
}
