/** The records that travel through the station: wire frames and decoded packets. */
module Packets {
  import opened GoText

  datatype Origin = SrcRF | SrcIS | SrcTX | SrcOther

  /** A wire-level frame; path hops may end in the used mark '*'. Raw is present for frames
      that came in as AX.25 bytes. */
  datatype Frame = Frame(src: string, dest: string, path: seq<string>, info: seq<byte>,
                         raw: Option<seq<byte>>, origin: Origin)

  /** Coordinates in hundredths of a minute, north and east positive. */
  datatype Fix = Fix(lat: int, lon: int)

  /** The fields of a decoded information field that this model is about. */
  datatype Decoded = Decoded(
    isMessage: bool, isAck: bool, isRej: bool, telemConfig: bool,
    msgTo: string, msgBody: string, msgID: string,
    ackedID: string, replyAckID: string, bulletinGroup: string,
    msgOrigSrc: string,
    fix: Option<Fix>, ambiguity: nat, symbol: string, comment: string)

  const NOTHING_DECODED: Decoded :=
    Decoded(false, false, false, false, "", "", "", "", "", "", "", None, 0, "", "")

  datatype Packet = Packet(frame: Frame, decoded: Decoded)
}
