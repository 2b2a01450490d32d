/** Who and what the panel and the limiter talk about. */
module Identities {

  /** The panel's number of a user. */
  datatype Uid = Uid(number: int)

  datatype Uuid = Uuid(text: string)

  /** A parsed, unmapped address in its canonical text. */
  datatype Ip = Ip(text: string)

  /** `panel.OnlineUser`: a user online from an address. */
  datatype OnlineDevice = OnlineDevice(uid: Uid, ip: Ip)
}
