/** Types shared by the translator, the points adapter and the sensor manager. */
module RsCommon {

  datatype Option<+T> = None | Some(value: T) {
    /** The carried value, or `default` when there is none. */
    function GetOr(default: T): T {
      match this
      case Some(v) => v
      case None => default
    }
  }

  /** The error codes that the modelled components report. */
  datatype ErrCode =
    | Success
    | LidarPointsProtoSendError
    | LidarPointsProtoReceiveError
}
