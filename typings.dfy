/**
 * The records the service works on. Times are integer milliseconds since the
 * epoch (what `Date.getTime()` gives); coordinates are carried through as
 * opaque reals.
 */
module Typings {
  import opened Wrappers

  /** Where a track sample came from. */
  datatype LocationType = GPS | LBS

  /** One sample of the track log. */
  datatype LocationData = LocationData(time: int, lat: real, lng: real, alt: real, kind: LocationType)

  /** A loaded track log: its path and its samples, sorted ascending by time by the loader. */
  datatype CSVData = CSVData(filePath: string, locationDataList: seq<LocationData>)

  /** The four EXIF tags read from each photo; an absent tag is `None`. */
  datatype Metadata = Metadata(
    gpsLatitude: Option<real>,
    gpsLongitude: Option<real>,
    gpsAltitude: Option<real>,
    dateTimeOriginal: Option<int>)

  /** One photo of the selected folder. */
  datatype FolderFile = FolderFile(fileName: string, filePath: string, metadata: Metadata)

  /** The selected folder and its photo list (the service tests the list for absence). */
  datatype FolderData = FolderData(folderPath: string, fileList: Option<seq<FolderFile>>)

  /** A progress notification. */
  datatype ProcessProgressData = ProcessProgressData(processed: int, total: int)
}
