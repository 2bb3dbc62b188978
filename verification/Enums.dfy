/** Enumerations of the exchange; candle intervals with their length in milliseconds and their name on the wire. */
module Enums {

  datatype CandleInterval = I1 | I3 | I5 | I15 | I30 | I60 | I120 | I240 | I360 | I720 | ID | IM | IW

  /** The stride of candle paging. A month counts as thirty days. */
  function NumberOfMs(interval: CandleInterval): (ms: int)
    ensures ms >= 60000
  {
    match interval
    case I1 => 60000
    case I3 => 60000 * 3
    case I5 => 60000 * 5
    case I15 => 60000 * 15
    case I30 => 60000 * 30
    case I60 => 60000 * 60
    case I120 => 60000 * 120
    case I240 => 60000 * 240
    case I360 => 60000 * 360
    case I720 => 60000 * 720
    case ID => 86400000
    case IW => 86400000 * 7
    case IM => 86400000 * 30
  }

  function Name(interval: CandleInterval): string
  {
    match interval
    case I1 => "1"
    case I3 => "3"
    case I5 => "5"
    case I15 => "15"
    case I30 => "30"
    case I60 => "60"
    case I120 => "120"
    case I240 => "240"
    case I360 => "360"
    case I720 => "720"
    case ID => "D"
    case IM => "M"
    case IW => "W"
  }

  datatype Category = Spot | Linear | Inverse | Options

  datatype Side = Buy | Sell | NoSide

  datatype OrderType = Limit | Market

  datatype TimeInForce = GTC | IOC | FOK | PostOnly

  datatype TriggerPriceType = LastPrice | IndexPrice | MarkPrice | UNKNOWN
}
