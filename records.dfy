/**
 * The records the bot exchanges with the venue and hands between its stages.
 * A JSON member that may be missing is an Option; numbers are integers at a fixed
 * scale (see each field).
 */
module Records {
  import opened Wrappers

  /**
   * One entry of a `private/get_positions` result.
   * `size` is the quote-currency (USD) size; `sizeCurrency` is the base-currency
   * (BTC) size in units of 10^-5; `estimatedLiquidationPrice` is in units of 10^-2
   * (None when the member is missing or JSON null).
   */
  datatype Position = Position(
    instrumentName: Option<string>,
    size: Option<int>,
    sizeCurrency: Option<int>,
    direction: Option<string>,
    estimatedLiquidationPrice: Option<int>)

  /** `pos.get("size", 0)` */
  function SizeOf(p: Position): int { p.size.GetOr(0) }

  /** The value of the `email` member of an account summary. */
  datatype EmailEntry = Absent | Null | Text(s: string)

  /**
   * A `private/get_account_summary` result: its `email` member and how many other
   * members it has (the object is falsy in Python exactly when it has none).
   */
  datatype Summary = Summary(email: EmailEntry, otherMembers: nat)

  /** The `result` object of a successful `public/auth` call. */
  datatype Token = Token(accessToken: string, refreshToken: string, expiresIn: Option<int>)

  /** One entry of the aggregated result: `{"email": ..., "positions": [...]}`. */
  datatype AccountPositions = AccountPositions(email: string, positions: seq<Position>)

  /** One discovered credential set: `{"client_id", "client_secret", "testnet", "suffix"}`. */
  datatype AccountConfig = AccountConfig(clientId: string, clientSecret: string, testnet: bool, suffix: string)
}
