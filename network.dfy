/**
 * The HTTP capability the client talks through. Nothing here reaches a network:
 * the venue is an oracle that answers each request as a function of every request
 * sent before it, so any deterministic server behaviour can be expressed, and the
 * transport records what was sent.
 */
module Network {
  import opened Wrappers
  import opened Records

  type Param = (string, string)

  datatype Request =
    /** `requests.get(url, headers=..., params=...)` */
    | Get(url: string, headers: seq<Param>, params: seq<Param>)
    /** `requests.post(url, json={"jsonrpc": ..., "method": ..., "params": {...}}, headers=...)` */
    | PostJson(url: string, headers: seq<Param>, jsonrpc: string, rpcMethod: string, params: seq<Param>)

  /** A response body: not JSON at all, or a JSON object with or without a non-null `result`. */
  datatype Body<T> = NotJson | JsonObject(result: Option<T>)

  /** `ConnectionFailed` stands for any `requests.RequestException` raised by the call itself. */
  datatype Reply<T> = ConnectionFailed | Response(status: int, body: Body<T>)

  type Server<T> = (seq<Request>, Request) -> Reply<T>

  /** The venue, answering each kind of call with the result type that call expects. */
  datatype Venue = Venue(auth: Server<Token>, summary: Server<Summary>, positions: Server<seq<Position>>)

  /** The statuses for which `response.raise_for_status()` raises. */
  predicate IsHttpError(status: int) { 400 <= status < 600 }

  class Transport {
    const venue: Venue
    var log: seq<Request>

    constructor (venue: Venue)
      ensures this.venue == venue && log == []
    {
      this.venue := venue;
      log := [];
    }

    /** Sends `req`; the reply is the server's answer given everything sent so far. */
    method Exchange<T>(req: Request, server: Server<T>) returns (reply: Reply<T>)
      modifies this
      ensures log == old(log) + [req]
      ensures reply == server(old(log), req)
    {
      reply := server(log, req);
      log := log + [req];
    }
  }
}
