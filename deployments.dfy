/** The two deployments decode an image reference in opposite orders: the
    worker runs base 64 first and percent-decoding second, the server the
    other way round. A reference made for one is therefore not understood by
    the other. */
module Deployments {
  import opened Wrappers
  import opened Bytes
  import opened Http
  import Base64
  import Utf8
  import Uri
  import Worker
  import Server

  /** Percent-encoding escapes every ':', so an absolute URL never encodes to itself. */
  lemma EncodingChangesUrl(url: string)
    requires ':' in url
    ensures Uri.EncodeComponent(url) != url
  {
  }

  /** Given the reference the worker decodes to `url`, the server fetches the
      percent-encoded form of `url` instead, which differs from `url` for
      any absolute URL. */
  lemma WorkerReferenceOnServer(url: string, bufferText: string -> string, origin: string -> ImageOrigin)
    requires url != ""
    requires Server.BufferDecodes(bufferText)
    ensures Server.ProxyImageReply(Worker.Reference(url), bufferText, origin).requested == Some(Uri.EncodeComponent(url))
    ensures ':' in url ==> Server.ProxyImageReply(Worker.Reference(url), bufferText, origin).requested != Some(url)
  {
    var escaped := Uri.EncodeComponent(url);
    Utf8.EncodeAscii(escaped);
    var octets := Latin1Bytes(escaped);
    assert Worker.Reference(url) == Base64.Encode(octets);
    Server.Base64Text(octets);
    Utf8.DecodeEncode(escaped);
    if ':' in url {
      EncodingChangesUrl(url);
    }
  }
}
