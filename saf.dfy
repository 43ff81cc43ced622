/** The per-tag record handed to the spatial-audio renderer. */
module Saf {

  /** Angles in radians, as the sphericalizer produces them. */
  datatype BufferMetadata = BufferMetadata(azimuth: real, elevation: real, range: real, gain: real)
}
