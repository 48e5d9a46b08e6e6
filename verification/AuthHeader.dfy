/** anp/anp/authentication/did_wba.py: the DIDWba Authorization header, its printer, its parser and its signature
    check. */
module AuthHeaders {
  import opened Strings
  import opened Wrappers

  // ---- regular expressions of the form (?i)key="([^"]+)" ----

  /** The letter a to z that a character matches, if it matches one: itself, its capital and four letters of other
      alphabets. */
  function Lower(c: char): char {
    if 'A' <= c <= 'Z' then c + ' '
    else if c == '\U{130}' || c == '\U{131}' then 'i'
    else if c == '\U{17F}' then 's'
    else if c == '\U{212A}' then 'k'
    else c
  }

  /** How the pattern letters match: the keys are made of a to z and the underscore. */
  ghost predicate SameIgnoringCase(a: string, b: string) {
    |a| == |b| && forall i :: 0 <= i < |a| ==> Lower(a[i]) == Lower(b[i])
  }

  predicate EqualIgnoringCase(a: string, b: string)
    ensures EqualIgnoringCase(a, b) <==> SameIgnoringCase(a, b)
  {
    if a == "" || b == "" then a == b else Lower(a[0]) == Lower(b[0]) && EqualIgnoringCase(a[1..], b[1..])
  }

  /** ([^"]+)" */
  function Captured(text: string): Option<string> {
    var n := Until(text, '"');
    if 0 < n < |text| then Some(text[..n]) else None
  }

  function MatchHere(text: string, key: string): Option<string> {
    var opening := key + "=\"";
    if |text| < |opening| || !EqualIgnoringCase(text[..|opening|], opening) then None
    else Captured(text[|opening|..])
  }

  /** re.search: the leftmost match. */
  function Search(text: string, key: string): Option<string> {
    if text == "" then None
    else
      match MatchHere(text, key)
      case Some(value) => Some(value)
      case None => Search(text[1..], key)
  }

  // ---- printing and parsing ----

  datatype Parts = Parts(
    did: string, nonce: string, timestamp: string, verificationMethod: string, signature: string, version: string)

  const SCHEME := "DIDWba"
  const DEFAULT_VERSION := "1.1"

  /** The header of generate_auth_header. */
  function Render(p: Parts): string {
    "DIDWba v=\"" + p.version + "\""
    + (", did=\"" + p.did + "\""
       + (", nonce=\"" + p.nonce + "\""
          + (", timestamp=\"" + p.timestamp + "\""
             + (", verification_method=\"" + p.verificationMethod + "\""
                + (", signature=\"" + p.signature + "\"")))))
  }

  /** What strip() removes. */
  predicate IsSpace(c: char) {
    || c == ' ' || '\t' <= c <= '\r' || '\U{1C}' <= c <= '\U{1F}' || c == '\U{85}' || c == '\U{A0}' || c == '\U{1680}'
    || '\U{2000}' <= c <= '\U{200A}' || c == '\U{2028}' || c == '\U{2029}' || c == '\U{202F}' || c == '\U{205F}'
    || c == '\U{3000}'
  }

  function LeftStrip(text: string): string {
    if text != "" && IsSpace(text[0]) then LeftStrip(text[1..]) else text
  }

  const REQUIRED_FIELDS := ["did", "nonce", "timestamp", "verification_method", "signature"]

  /** extract_auth_header_parts; None stands for its ValueError. */
  function Extract(header: string): Option<Parts> {
    if !(SCHEME <= LeftStrip(header)) then None
    else
      match (Search(header, "did"), Search(header, "nonce"), Search(header, "timestamp"),
             Search(header, "verification_method"), Search(header, "signature"))
      case (Some(did), Some(nonce), Some(timestamp), Some(verificationMethod), Some(signature)) =>
        Some(Parts(did, nonce, timestamp, verificationMethod, signature,
                   match Search(header, "v") case Some(version) => version case None => DEFAULT_VERSION))
      case _ => None
  }

  lemma MissingField(header: string, i: nat)
    requires i < |REQUIRED_FIELDS| && Search(header, REQUIRED_FIELDS[i]).None?
    ensures Extract(header).None?
  {
    assert REQUIRED_FIELDS[i] in {"did", "nonce", "timestamp", "verification_method", "signature"};
  }

  /** extract_auth_header_parts, filling its dictionary in a loop */
  method ExtractAuthHeaderParts(header: string) returns (r: Option<Parts>)
    ensures r == Extract(header)
  {
    if !(SCHEME <= LeftStrip(header)) {
      return None;
    }
    var fields := REQUIRED_FIELDS;
    assert fields[0] == "did" && fields[1] == "nonce" && fields[2] == "timestamp"
        && fields[3] == "verification_method" && fields[4] == "signature";
    var parts: map<string, string> := map[];
    for i := 0 to |fields|
      invariant forall k :: 0 <= k < i ==> fields[k] in parts && Search(header, fields[k]) == Some(parts[fields[k]])
    {
      var found := Search(header, fields[i]);
      if found.None? {
        MissingField(header, i);
        return None;
      }
      parts := parts[fields[i] := found.value];
    }
    var version := Search(header, "v");
    return Some(Parts(parts["did"], parts["nonce"], parts["timestamp"], parts["verification_method"],
                      parts["signature"], if version.Some? then version.value else DEFAULT_VERSION));
  }

  // ---- DID documents ----

  datatype PublicKey = PublicKey(name: string)

  datatype Method = Method(id: Option<string>, key: PublicKey)

  datatype AuthEntry = Reference(id: string) | Embedded(m: Method)

  datatype Document = Document(id: Option<string>, verificationMethod: seq<Method>, authentication: seq<AuthEntry>)

  /** Raised: a verification method without an id was met. */
  datatype Lookup = Raised | NotFound | Found(m: Method)

  function FindIn(methods: seq<Method>, id: string): Lookup {
    if methods == [] then NotFound
    else if methods[0].id.None? then Raised
    else if methods[0].id.value == id then Found(methods[0])
    else FindIn(methods[1..], id)
  }

  function FindInEntries(doc: Document, entries: seq<AuthEntry>, id: string): Lookup {
    if entries == [] then NotFound
    else
      match entries[0]
      case Reference(r) =>
        if r == id && FindIn(doc.verificationMethod, id) != NotFound then FindIn(doc.verificationMethod, id)
        else FindInEntries(doc, entries[1..], id)
      case Embedded(m) => if m.id == Some(id) then Found(m) else FindInEntries(doc, entries[1..], id)
  }

  function FindMethod(doc: Document, id: string): Lookup {
    match FindIn(doc.verificationMethod, id)
    case NotFound => FindInEntries(doc, doc.authentication, id)
    case found => found
  }

  method SearchMethods(methods: seq<Method>, id: string) returns (r: Lookup)
    ensures r == FindIn(methods, id)
  {
    for i := 0 to |methods|
      invariant FindIn(methods, id) == FindIn(methods[i..], id)
    {
      assert methods[i..][1..] == methods[i + 1..];
      if methods[i].id.None? {
        return Raised;
      }
      if methods[i].id.value == id {
        return Found(methods[i]);
      }
    }
    return NotFound;
  }

  /** _find_verification_method */
  method FindVerificationMethod(doc: Document, id: string) returns (r: Lookup)
    ensures r == FindMethod(doc, id)
  {
    r := SearchMethods(doc.verificationMethod, id);
    if r != NotFound {
      return;
    }
    var entries := doc.authentication;
    for i := 0 to |entries|
      invariant FindInEntries(doc, entries, id) == FindInEntries(doc, entries[i..], id)
    {
      assert entries[i..][1..] == entries[i + 1..];
      match entries[i]
      case Reference(reference) =>
        if reference == id {
          r := SearchMethods(doc.verificationMethod, id);
          if r != NotFound {
            return;
          }
        }
      case Embedded(m) =>
        if m.id == Some(id) {
          return Found(m);
        }
    }
    return NotFound;
  }

  /** id.split("#")[-1] */
  function Fragment(id: string): string {
    var parts := Split(id, '#');
    parts[|parts| - 1]
  }

  /** _select_authentication_method, with the id it goes by; None stands for its ValueError. */
  function SelectMethod(doc: Document): Option<(Method, string)> {
    if doc.authentication == [] then None
    else
      match doc.authentication[0]
      case Reference(id) =>
        (match FindMethod(doc, id)
         case Found(m) => Some((m, id))
         case _ => None)
      case Embedded(m) => if m.id.None? then None else Some((m, m.id.value))
  }

  // ---- signing and checking ----

  /** What is canonicalised, hashed and signed; `audience` tells the name of the domain's field. */
  datatype Payload = Payload(nonce: string, timestamp: string, audience: bool, domain: string, did: string)

  /** generate_auth_header. `sign` is the caller's callback, `usesAudience` tells version numbers from 1.1 on,
      nonce and timestamp are drawn by the caller. None stands for a ValueError. */
  function Generate(doc: Document, domain: string, version: string, nonce: string, timestamp: string,
                    sign: (Payload, string) -> string, usesAudience: string -> bool): Option<Parts>
  {
    if doc.id.None? || doc.id.value == "" || SelectMethod(doc).None? then None
    else
      var fragment := Fragment(SelectMethod(doc).value.1);
      var payload := Payload(nonce, timestamp, usesAudience(version), domain, doc.id.value);
      Some(Parts(doc.id.value, nonce, timestamp, fragment, sign(payload, fragment), version))
  }

  /** lower(), for texts whose only capitals are A to Z */
  function LowerCase(text: string): string {
    if text == "" then ""
    else [if 'A' <= text[0] <= 'Z' then text[0] + ' ' else text[0]] + LowerCase(text[1..])
  }

  /** verify_auth_header_signature after the header is taken apart */
  function CheckParts(p: Parts, doc: Document, domain: string,
                      valid: (PublicKey, Payload, string) -> bool, usesAudience: string -> bool): bool
  {
    && doc.id.Some? && LowerCase(doc.id.value) == LowerCase(p.did)
    && match FindMethod(doc, p.did + "#" + p.verificationMethod)
       case Found(m) =>
         valid(m.key, Payload(p.nonce, p.timestamp, usesAudience(p.version), domain, p.did), p.signature)
       case _ => false
  }

  /** verify_auth_header_signature; `valid` is the signature check of a method's key. */
  function Verify(header: string, doc: Document, domain: string,
                  valid: (PublicKey, Payload, string) -> bool, usesAudience: string -> bool): bool
  {
    match Extract(header)
    case None => false
    case Some(p) => CheckParts(p, doc, domain, valid, usesAudience)
  }
}
