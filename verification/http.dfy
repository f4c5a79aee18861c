/** What a request handler writes back: one `writeHead` (status and a single
    header) followed by one `end` (the body). */
module Http {

  /** File contents as stored on disk. */
  type Bytes = seq<bv8>

  datatype Request = Request(verb: string, url: string)

  datatype Header = ContentType(mime: string) | Location(url: string)

  datatype Body = NoBody | Text(text: string) | Data(bytes: Bytes)

  datatype Response = Response(status: nat, header: Header, body: Body)

  /** `Thrown`: the handler raised an exception before writing anything. */
  datatype Reply = Sent(response: Response) | Thrown
}
