/** The HTTP Server API (HTTP.sys) as seen by the wrapper: abstract status codes, the exceptions
    the wrapper raises, a trace of the native calls it makes, and the native calls themselves as
    oracles. Nothing here performs I/O: every native call is a parameter. */
module HttpApi {
  import opened Security

  /** Win32 status codes. The wrapper distinguishes three of them; `Other(n)` stands for any
      other value. The numeric values are not part of the model, only their distinctness. */
  datatype Code = NoError | AlreadyExists | NoMoreItems | Other(n: nat)

  /** The exceptions the wrapper and its callers raise. */
  datatype Failure =
    | ArgumentError(message: string)   // ArgumentException
    | Win32Error(code: Code)           // Win32Exception carrying the native code
    | InvalidAccountName(account: string) // ArgumentException from the NTAccount constructor
    | AccountNotMapped(account: string) // an account name with no SID
    | SidNotMapped(sid: Sid)            // a SID with no account name

  const AlreadyExistsMessage := "A reservation for this URL already exists."

  /** Native calls, in the order they are made. */
  datatype Call =
    | Initialize
    | Query(token: nat)
    | SetConfig(url: string, acl: seq<Ace>)
    | DeleteConfig(url: string, acl: seq<Ace>)
    | Terminate

  /** What one URL-ACL query returns: a status code and, when the code is `NoError`, the
      reservation found at that token (its URL prefix and the SIDs of its security descriptor). */
  datatype Reply = Reply(code: Code, urlPrefix: string, sids: seq<Sid>)

  /** The native API: the code `HttpInitialize` returns, the reply for each query token, the
      codes the set and delete calls return for a URL and an ACL, and the code `HttpTerminate`
      returns. */
  datatype Api = Api(
    initialize: Code,
    query: nat -> Reply,
    setConfig: (string, seq<Ace>) -> Code,
    deleteConfig: (string, seq<Ace>) -> Code,
    terminate: Code)

  /** The enumeration token is an unsigned 32-bit integer. */
  const TokenLimit: nat := 0x1_0000_0000
}
