/** When a printed DIDWba header is read back unchanged, and when the signature check accepts it. */
module AuthHeaderLaws {
  import opened Strings
  import opened Wrappers
  import opened AuthHeaders

  // ---- the parser, seen through the quotes ----

  /** `part` ends with key=, letter case ignored. */
  predicate EndsWithKey(part: string, key: string) {
    |part| > |key| && EqualIgnoringCase(part[|part| - |key| - 1..], key + "=")
  }

  /** The search over the text cut at its quotes. */
  function SearchParts(parts: seq<string>, key: string): Option<string> {
    if |parts| < 3 then None
    else if EndsWithKey(parts[0], key) && parts[1] != "" then Some(parts[1])
    else SearchParts(parts[1..], key)
  }

  function CapturedPart(parts: seq<string>): Option<string> {
    if |parts| >= 2 && parts[0] != "" then Some(parts[0]) else None
  }

  lemma CapturedIsFirstPart(text: string)
    ensures Captured(text) == CapturedPart(Split(text, '"'))
  {
    SplitHead(text, '"');
  }

  function MatchAtQuote(text: string, key: string): Option<string> {
    var n := Until(text, '"');
    if n < |text| && n == |key| + 1 && EqualIgnoringCase(text[..n], key + "=") then Captured(text[n + 1..]) else None
  }

  lemma MatchEndsAtFirstQuote(text: string, key: string)
    requires '"' !in key
    ensures MatchHere(text, key) == MatchAtQuote(text, key)
  {
    var n, opening := Until(text, '"'), key + "=\"";
    if |text| >= |opening| {
      if SameIgnoringCase(text[..|opening|], opening) {
        assert Lower(text[|key| + 1]) == Lower(opening[|key| + 1]);
        forall i | 0 <= i <= |key|
          ensures text[i] != '"' && Lower(text[i]) == Lower((key + "=")[i])
        {
          assert Lower(text[..|opening|][i]) == Lower(opening[i]);
          assert opening[i] == (key + "=")[i] != '"';
        }
        assert n == |key| + 1;
      } else if n == |key| + 1 && SameIgnoringCase(text[..n], key + "=") {
        forall i | 0 <= i < |opening|
          ensures Lower(text[..|opening|][i]) == Lower(opening[i])
        {
          if i < n { assert Lower(text[..n][i]) == Lower((key + "=")[i]); }
        }
        assert false;
      }
    }
  }

  lemma {:induction false} SearchByParts(text: string, key: string)
    requires '"' !in key
    ensures Search(text, key) == SearchParts(Split(text, '"'), key)
  {
    if text != "" {
      SearchByParts(text[1..], key);
      MatchEndsAtFirstQuote(text, key);
      SplitHead(text, '"');
      if text[0] != '"' {
        SearchLetter(text, key);
      }
    }
  }

  /** One more letter before the first quote. */
  lemma SearchLetter(text: string, key: string)
    requires text != "" && text[0] != '"'
    requires MatchHere(text, key) == MatchAtQuote(text, key)
    ensures SearchParts(Split(text, '"'), key)
         == if MatchHere(text, key).Some? then MatchHere(text, key) else SearchParts(Split(text[1..], '"'), key)
  {
    var n := Until(text, '"');
    SplitHead(text, '"');
    SplitHead(text[1..], '"');
    if n < |text| {
      var part, rest := text[..n], Split(text[n + 1..], '"');
      CapturedIsFirstPart(text[n + 1..]);
      assert text[1..][..n - 1] == part[1..] && text[1..][n..] == text[n + 1..];
      EndsWithTail(part, key);
      LongerPart(part, rest, key);
    }
  }

  lemma LongerPart(part: string, rest: seq<string>, key: string)
    requires part != ""
    requires EndsWithKey(part, key) <==>
      EndsWithKey(part[1..], key) || (|part| == |key| + 1 && EqualIgnoringCase(part, key + "="))
    ensures SearchParts([part] + rest, key)
         == if |part| == |key| + 1 && EqualIgnoringCase(part, key + "=") && CapturedPart(rest).Some?
            then CapturedPart(rest) else SearchParts([part[1..]] + rest, key)
  {
    assert ([part] + rest)[1..] == rest == ([part[1..]] + rest)[1..];
  }

  lemma EndsWithTail(part: string, key: string)
    requires part != ""
    ensures EndsWithKey(part, key) <==>
              EndsWithKey(part[1..], key) || (|part| == |key| + 1 && EqualIgnoringCase(part, key + "="))
  {
    if |part| > |key| + 1 {
      assert part[1..][|part| - 1 - |key| - 1..] == part[|part| - |key| - 1..];
    } else if |part| == |key| + 1 {
      assert part[0..] == part;
    }
  }

  // ---- what the parser finds in a printed header ----

  type KeyValue = (string, string)

  function FieldsOf(p: Parts): seq<KeyValue> {
    [("v", p.version), ("did", p.did), ("nonce", p.nonce), ("timestamp", p.timestamp),
     ("verification_method", p.verificationMethod), ("signature", p.signature)]
  }

  function RenderFields(lead: string, fs: seq<KeyValue>): string
    decreases fs
  {
    if fs == [] then "" else lead + fs[0].0 + "=" + "\"" + fs[0].1 + "\"" + RenderFields(", ", fs[1..])
  }

  /** The printed fields cut at the quotes. */
  function PartsOf(lead: string, fs: seq<KeyValue>): seq<string>
    decreases fs
  {
    if fs == [] then [""] else [lead + fs[0].0 + "=", fs[0].1] + PartsOf(", ", fs[1..])
  }

  lemma RenderPiece(lead: string, opening: string, fs: seq<KeyValue>, rest: seq<KeyValue>)
    requires fs != [] && rest == fs[1..] && opening == lead + fs[0].0 + "=\""
    ensures RenderFields(lead, fs) == opening + fs[0].1 + "\"" + RenderFields(", ", rest)
  {
  }

  lemma RenderIsFields(p: Parts)
    ensures Render(p) == RenderFields("DIDWba ", FieldsOf(p))
  {
    var fs := FieldsOf(p);
    RenderPiece("DIDWba ", "DIDWba v=\"", fs, fs[1..]);
    RenderPiece(", ", ", did=\"", fs[1..], fs[2..]);
    RenderPiece(", ", ", nonce=\"", fs[2..], fs[3..]);
    assert fs[3..] == [("timestamp", p.timestamp), ("verification_method", p.verificationMethod),
                       ("signature", p.signature)];
    LastThree(p.timestamp, p.verificationMethod, p.signature);
  }

  lemma LastThree(timestamp: string, verificationMethod: string, signature: string)
    ensures RenderFields(", ", [("timestamp", timestamp), ("verification_method", verificationMethod),
                                ("signature", signature)])
         == ", timestamp=\"" + timestamp + "\""
            + (", verification_method=\"" + verificationMethod + "\""
               + (", signature=\"" + signature + "\""))
  {
    var fs := [("timestamp", timestamp), ("verification_method", verificationMethod), ("signature", signature)];
    RenderPiece(", ", ", timestamp=\"", fs, fs[1..]);
    RenderPiece(", ", ", verification_method=\"", fs[1..], fs[2..]);
    RenderPiece(", ", ", signature=\"", fs[2..], []);
    assert ", signature=\"" + signature + "\"" + "" == ", signature=\"" + signature + "\"";
  }

  ghost predicate QuoteFree(fs: seq<KeyValue>) {
    forall f :: f in fs ==> '"' !in f.0 && '"' !in f.1
  }

  lemma {:induction false} SplitRendered(lead: string, fs: seq<KeyValue>)
    requires '"' !in lead && QuoteFree(fs)
    ensures Split(RenderFields(lead, fs), '"') == PartsOf(lead, fs)
    decreases fs
  {
    if fs != [] {
      SplitRendered(", ", fs[1..]);
      SplitPiece(lead + fs[0].0 + "=", fs[0].1, RenderFields(", ", fs[1..]));
    }
  }

  lemma SplitPiece(opening: string, value: string, rest: string)
    requires '"' !in opening && '"' !in value
    ensures Split(opening + "\"" + value + "\"" + rest, '"') == [opening, value] + Split(rest, '"')
    ensures opening + "\"" + value + "\"" + rest == opening + ['"'] + (value + ['"'] + rest)
  {
    SplitPart(value, '"', rest);
    SplitPart(opening, '"', value + ['"'] + rest);
    assert opening + "\"" + value + "\"" + rest == opening + ['"'] + (value + ['"'] + rest);
  }

  /** Two keys that no text can end with at once, told apart by their last two letters. */
  predicate Apart(k: string, key: string) {
    || (|k| > 0 && |key| > 0 && Lower(k[|k| - 1]) != Lower(key[|key| - 1]))
    || (|k| > 1 && |key| > 1 && Lower(k[|k| - 2]) != Lower(key[|key| - 2]))
  }

  ghost predicate KeysApart(fs: seq<KeyValue>, key: string) {
    forall f :: f in fs ==> f.0 == key || Apart(f.0, key)
  }

  lemma EndsAlike(lead: string, k: string, key: string)
    requires EndsWithKey(lead + k + "=", key)
    ensures !Apart(k, key)
  {
    var part, word := lead + k + "=", key + "=";
    var tail := part[|part| - |word|..];
    assert forall i :: 0 <= i < |word| ==> Lower(tail[i]) == Lower(word[i]);
    if |k| > 0 && |key| > 0 {
      assert tail[|key| - 1] == k[|k| - 1] && word[|key| - 1] == key[|key| - 1];
    }
    if |k| > 1 && |key| > 1 {
      assert tail[|key| - 2] == k[|k| - 2] && word[|key| - 2] == key[|key| - 2];
    }
  }

  lemma OpeningOfOther(lead: string, k: string, key: string)
    ensures EndsWithKey(lead + key + "=", key)
    ensures Apart(k, key) ==> !EndsWithKey(lead + k + "=", key)
  {
    var own := lead + key + "=";
    assert own[|own| - |key| - 1..] == key + "=";
    if EndsWithKey(lead + k + "=", key) {
      EndsAlike(lead, k, key);
    }
  }

  /** What the search for `key` finds in the printed fields: the value of that field, unless an earlier value ends
      with key=, in which case the text between that value and the next one is taken. */
  function Recovered(fs: seq<KeyValue>, key: string): Option<string> {
    if fs == [] then None
    else if fs[0].0 == key then Some(fs[0].1)
    else if EndsWithKey(fs[0].1, key) && |fs| > 1 then Some(", " + fs[1].0 + "=")
    else Recovered(fs[1..], key)
  }

  lemma {:induction false} SearchRendered(lead: string, fs: seq<KeyValue>, key: string)
    requires KeysApart(fs, key) && forall f :: f in fs ==> f.1 != ""
    ensures SearchParts(PartsOf(lead, fs), key) == Recovered(fs, key)
    decreases fs
  {
    if fs != [] {
      SearchRendered(", ", fs[1..], key);
      var parts, rest := PartsOf(lead, fs), PartsOf(", ", fs[1..]);
      assert parts[1..] == [fs[0].1] + rest;
      assert parts[1..][1..] == rest;
      OpeningOfOther(lead, fs[0].0, key);
      if |fs| > 1 {
        assert rest[0] == ", " + fs[1].0 + "=" && |rest| >= 3;
      } else {
        assert rest == [""];
      }
    }
  }

  // ---- the round trip ----

  /** The first earlier value that ends with key=. */
  ghost predicate FirstShadow(fs: seq<KeyValue>, i: nat, key: string)
    requires i < |fs|
  {
    EndsWithKey(fs[i].1, key) && forall h :: 0 <= h < i ==> !EndsWithKey(fs[h].1, key)
  }

  /** No earlier value hides field j, or it shows the very same text in its place. */
  ghost predicate Visible(fs: seq<KeyValue>, j: nat)
    requires j < |fs|
  {
    forall i :: 0 <= i < j && FirstShadow(fs, i, fs[j].0) ==> fs[j].1 == ", " + fs[i + 1].0 + "="
  }

  ghost predicate DistinctKeys(fs: seq<KeyValue>) {
    forall i, j :: 0 <= i < j < |fs| ==> fs[i].0 != fs[j].0
  }

  lemma {:induction false} RecoveredIff(fs: seq<KeyValue>, j: nat)
    requires j < |fs| && DistinctKeys(fs)
    ensures Recovered(fs, fs[j].0) == Some(fs[j].1) <==> Visible(fs, j)
  {
    if j > 0 {
      var key := fs[j].0;
      if EndsWithKey(fs[0].1, key) {
        assert FirstShadow(fs, 0, key);
      } else {
        RecoveredIff(fs[1..], j - 1);
        forall i | 0 <= i < j
          ensures FirstShadow(fs, i, key) <==> i > 0 && FirstShadow(fs[1..], i - 1, key)
        {
          if i > 0 {
            assert forall h :: 0 < h < i ==> fs[1..][h - 1] == fs[h];
            if FirstShadow(fs[1..], i - 1, key) {
              forall h | 0 <= h < i
                ensures !EndsWithKey(fs[h].1, key)
              {
                if h > 0 { assert !EndsWithKey(fs[1..][h - 1].1, key); }
              }
            }
          }
        }
        assert Visible(fs, j) <==> Visible(fs[1..], j - 1) by {
          VisibleTail(fs, j);
        }
      }
    }
  }

  lemma VisibleTail(fs: seq<KeyValue>, j: nat)
    requires 0 < j < |fs|
    requires forall i :: 0 <= i < j ==>
      (FirstShadow(fs, i, fs[j].0) <==> i > 0 && FirstShadow(fs[1..], i - 1, fs[j].0))
    ensures Visible(fs, j) <==> Visible(fs[1..], j - 1)
  {
    if Visible(fs, j) {
      forall i | 0 <= i < j - 1 && FirstShadow(fs[1..], i, fs[j].0)
        ensures fs[j].1 == ", " + fs[1..][i + 1].0 + "="
      {
        assert FirstShadow(fs, i + 1, fs[j].0);
      }
    }
    if Visible(fs[1..], j - 1) {
      forall i | 0 <= i < j && FirstShadow(fs, i, fs[j].0)
        ensures fs[j].1 == ", " + fs[i + 1].0 + "="
      {
        assert FirstShadow(fs[1..], i - 1, fs[1..][j - 1].0);
      }
    }
  }

  ghost predicate PlainText(value: string) {
    value != "" && '"' !in value
  }

  /** What the parser finds for a field. */
  lemma SearchFinds(lead: string, fs: seq<KeyValue>, j: nat)
    requires '"' !in lead && QuoteFree(fs) && j < |fs| && KeysApart(fs, fs[j].0)
    requires forall f :: f in fs ==> f.1 != ""
    ensures Search(RenderFields(lead, fs), fs[j].0) == Recovered(fs, fs[j].0)
  {
    SplitRendered(lead, fs);
    SearchByParts(RenderFields(lead, fs), fs[j].0);
    SearchRendered(lead, fs, fs[j].0);
  }

  /** The parser on any list of fields: all are found exactly when all are visible. */
  lemma AllFoundIff(lead: string, fs: seq<KeyValue>)
    requires '"' !in lead && QuoteFree(fs) && DistinctKeys(fs)
    requires forall f :: f in fs ==> f.1 != ""
    requires forall j :: 0 <= j < |fs| ==> KeysApart(fs, fs[j].0)
    ensures (forall j :: 0 <= j < |fs| ==> Search(RenderFields(lead, fs), fs[j].0) == Some(fs[j].1))
       <==> (forall j :: 0 <= j < |fs| ==> Visible(fs, j))
    ensures |fs| > 0 ==> Search(RenderFields(lead, fs), fs[0].0) == Some(fs[0].1)
  {
    forall j | 0 <= j < |fs|
      ensures Search(RenderFields(lead, fs), fs[j].0) == Some(fs[j].1) <==> Visible(fs, j)
    {
      SearchFinds(lead, fs, j);
      RecoveredIff(fs, j);
    }
  }

  // ---- the six fields ----

  const KEYS := ["v", "did", "nonce", "timestamp", "verification_method", "signature"]
  const LAST_LETTERS := "vdepde"
  const LETTERS_BEFORE := "vicmor"

  lemma KeyTail(j: nat)
    requires j < 6
    ensures '"' !in KEYS[j] && |KEYS[j]| > 0 && KEYS[j][|KEYS[j]| - 1] == LAST_LETTERS[j]
    ensures j > 0 ==> |KEYS[j]| > 1 && KEYS[j][|KEYS[j]| - 2] == LETTERS_BEFORE[j]
  {
  }

  lemma TailsDiffer(i: nat, j: nat)
    requires i < j < 6
    ensures Lower(LAST_LETTERS[i]) != Lower(LAST_LETTERS[j])
         || (i > 0 && Lower(LETTERS_BEFORE[i]) != Lower(LETTERS_BEFORE[j]))
  {
  }

  lemma FieldKeysOk(fs: seq<KeyValue>)
    requires |fs| == 6 && forall j :: 0 <= j < 6 ==> fs[j].0 == KEYS[j]
    ensures DistinctKeys(fs)
    ensures forall j :: 0 <= j < 6 ==> '"' !in fs[j].0 && KeysApart(fs, fs[j].0)
  {
    forall i, j | 0 <= i < j < 6
      ensures fs[i].0 != fs[j].0 && Apart(fs[i].0, fs[j].0) && Apart(fs[j].0, fs[i].0)
    {
      KeyTail(i);
      KeyTail(j);
      TailsDiffer(i, j);
    }
    forall j | 0 <= j < 6
      ensures '"' !in fs[j].0
    {
      KeyTail(j);
    }
  }

  ghost predicate AllPlain(p: Parts) {
    && PlainText(p.version) && PlainText(p.did) && PlainText(p.nonce) && PlainText(p.timestamp)
    && PlainText(p.verificationMethod) && PlainText(p.signature)
  }

  /** The headers that are read back as they were printed. */
  ghost predicate Readable(p: Parts) {
    AllPlain(p) && forall j :: 0 <= j < 6 ==> Visible(FieldsOf(p), j)
  }

  lemma SearchedIsPlain(text: string, key: string)
    ensures Search(text, key).Some? ==> PlainText(Search(text, key).value)
  {
    if text != "" {
      SearchedIsPlain(text[1..], key);
    }
  }

  /** Whatever the parser returns is non-empty and holds no quote. */
  lemma ExtractedIsPlain(header: string, p: Parts)
    requires Extract(header) == Some(p)
    ensures AllPlain(p)
  {
    SearchedIsPlain(header, "v");
    SearchedIsPlain(header, "did");
    SearchedIsPlain(header, "nonce");
    SearchedIsPlain(header, "timestamp");
    SearchedIsPlain(header, "verification_method");
    SearchedIsPlain(header, "signature");
  }

  /** Extraction puts the six searches together. */
  lemma ExtractIff(header: string, p: Parts)
    requires SCHEME <= LeftStrip(header) && Search(header, "v") == Some(p.version)
    ensures Extract(header) == Some(p) <==>
      && Search(header, "did") == Some(p.did) && Search(header, "nonce") == Some(p.nonce)
      && Search(header, "timestamp") == Some(p.timestamp)
      && Search(header, "verification_method") == Some(p.verificationMethod)
      && Search(header, "signature") == Some(p.signature)
  {
  }

  lemma SchemeFirst(p: Parts)
    ensures SCHEME <= LeftStrip(Render(p))
  {
    assert Render(p)[0] == 'D';
  }

  lemma AllSearches(header: string, p: Parts)
    ensures (forall j :: 0 <= j < 6 ==> Search(header, FieldsOf(p)[j].0) == Some(FieldsOf(p)[j].1)) <==>
      && Search(header, "v") == Some(p.version)
      && Search(header, "did") == Some(p.did) && Search(header, "nonce") == Some(p.nonce)
      && Search(header, "timestamp") == Some(p.timestamp)
      && Search(header, "verification_method") == Some(p.verificationMethod)
      && Search(header, "signature") == Some(p.signature)
  {
    var fs := FieldsOf(p);
    FieldsAre(p);
    if Search(header, "v") == Some(p.version)
       && Search(header, "did") == Some(p.did) && Search(header, "nonce") == Some(p.nonce)
       && Search(header, "timestamp") == Some(p.timestamp)
       && Search(header, "verification_method") == Some(p.verificationMethod)
       && Search(header, "signature") == Some(p.signature) {
      forall j | 0 <= j < 6
        ensures Search(header, fs[j].0) == Some(fs[j].1)
      {
        assert j == 0 || j == 1 || j == 2 || j == 3 || j == 4 || j == 5;
      }
    }
  }

  lemma FieldsAre(p: Parts)
    ensures var fs := FieldsOf(p);
            && fs[0] == ("v", p.version) && fs[1] == ("did", p.did) && fs[2] == ("nonce", p.nonce)
            && fs[3] == ("timestamp", p.timestamp) && fs[4] == ("verification_method", p.verificationMethod)
            && fs[5] == ("signature", p.signature)
  {
  }

  lemma PlainFields(p: Parts)
    requires AllPlain(p)
    ensures QuoteFree(FieldsOf(p)) && DistinctKeys(FieldsOf(p))
    ensures forall f :: f in FieldsOf(p) ==> f.1 != ""
    ensures forall j :: 0 <= j < 6 ==> KeysApart(FieldsOf(p), FieldsOf(p)[j].0)
  {
    FieldKeysOk(FieldsOf(p));
  }

  /** A printed header is read back unchanged exactly when every value is non-empty, holds no quote and is visible. */
  lemma RoundTripIff(p: Parts)
    ensures Extract(Render(p)) == Some(p) <==> Readable(p)
  {
    if AllPlain(p) {
      PlainFields(p);
      RenderIsFields(p);
      AllFoundIff("DIDWba ", FieldsOf(p));
      AllSearches(Render(p), p);
      SchemeFirst(p);
      ExtractIff(Render(p), p);
    } else if Extract(Render(p)) == Some(p) {
      ExtractedIsPlain(Render(p), p);
    }
  }

  lemma {:induction false} RecoveredShadow(fs: seq<KeyValue>, i: nat, j: nat)
    requires i < j < |fs| && DistinctKeys(fs) && FirstShadow(fs, i, fs[j].0)
    ensures Recovered(fs, fs[j].0) == Some(", " + fs[i + 1].0 + "=")
  {
    if i > 0 {
      assert !EndsWithKey(fs[0].1, fs[j].0);
      forall h | 0 <= h < i - 1
        ensures !EndsWithKey(fs[1..][h].1, fs[j].0)
      {
        assert fs[1..][h] == fs[h + 1];
      }
      RecoveredShadow(fs[1..], i - 1, j - 1);
    }
  }

  /** What is read for a hidden field is the text after the value that hides it. */
  lemma HiddenIsLost(p: Parts, i: nat, j: nat)
    requires AllPlain(p) && i < j < 6 && FirstShadow(FieldsOf(p), i, FieldsOf(p)[j].0)
    ensures Search(Render(p), FieldsOf(p)[j].0) == Some(", " + FieldsOf(p)[i + 1].0 + "=")
  {
    PlainFields(p);
    RenderIsFields(p);
    SearchFinds("DIDWba ", FieldsOf(p), j);
    RecoveredShadow(FieldsOf(p), i, j);
  }

  /** Two such DIDs, one in plain letters and one in other letters that match them. */
  lemma EndsWithSignature(did: string)
    requires did in {"xsignature=", "x\U{17F}\U{131}gnature="}
    ensures EndsWithKey(did, "signature") && PlainText(did)
  {
    assert did[1..] == did[|did| - 9 - 1..] && SameIgnoringCase(did[1..], "signature" + "=");
  }

  lemma DidShadows(p: Parts)
    requires EndsWithKey(p.did, "signature") && !EndsWithKey(p.version, "signature")
    ensures FieldsOf(p)[5].0 == "signature" && FieldsOf(p)[2].0 == "nonce"
    ensures FirstShadow(FieldsOf(p), 1, FieldsOf(p)[5].0)
  {
    FieldsAre(p);
  }

  /** A header that is read back gives its signature to the search. */
  lemma ReadBackSignature(p: Parts)
    ensures Extract(Render(p)) == Some(p) ==> Search(Render(p), "signature") == Some(p.signature)
  {
  }

  /** A DID that ends with the key of the signature hides the signature: the parser takes the text after the DID for it,
      and the header is not read back unless that is the signature. */
  lemma HiddenSignature(p: Parts)
    requires AllPlain(p) && EndsWithKey(p.did, "signature") && !EndsWithKey(p.version, "signature")
    ensures Search(Render(p), "signature") == Some(", " + "nonce" + "=")
    ensures p.signature != ", " + "nonce" + "=" ==> Extract(Render(p)) != Some(p)
  {
    DidShadows(p);
    HiddenIsLost(p, 1, 5);
    ReadBackSignature(p);
  }

  ghost predicate NoEqualsAtEnd(value: string) {
    value != "" ==> value[|value| - 1] != '='
  }

  /** Values that are non-empty, hold no quote and do not end in an equals sign are always read back. */
  lemma PlainValuesRoundTrip(p: Parts)
    requires AllPlain(p) && forall f :: f in FieldsOf(p) ==> NoEqualsAtEnd(f.1)
    ensures Extract(Render(p)) == Some(p)
  {
    forall i, key | 0 <= i < 6
      ensures !EndsWithKey(FieldsOf(p)[i].1, key)
    {
      PlainEnd(FieldsOf(p)[i].1, key);
    }
    RoundTripIff(p);
  }

  lemma PlainEnd(value: string, key: string)
    requires NoEqualsAtEnd(value)
    ensures !EndsWithKey(value, key)
  {
    if |value| > |key| {
      var tail, word := value[|value| - |key| - 1..], key + "=";
      assert tail[|key|] == value[|value| - 1] && word[|key|] == '=';
      assert Lower(tail[|key|]) != Lower(word[|key|]);
    }
  }

  // ---- what may be missing, and what may not ----

  /** Past the spaces in front, every header that is taken apart begins with the scheme. */
  lemma {:induction false} SchemeNeeded(spaces: string, rest: string)
    requires (forall c :: c in spaces ==> IsSpace(c)) && (rest != "" ==> !IsSpace(rest[0]))
    ensures LeftStrip(spaces + rest) == rest
    ensures Extract(spaces + rest).Some? ==> "DIDWba" <= rest
  {
    if spaces == "" {
      assert spaces + rest == rest;
    } else {
      assert spaces[0] in spaces && forall c :: c in spaces[1..] ==> c in spaces;
      SchemeNeeded(spaces[1..], rest);
      assert (spaces + rest)[1..] == spaces[1..] + rest;
    }
  }

  /** No value ends with key=, so the search for a key that is not among the fields finds nothing. */
  lemma {:induction false} NothingRecovered(fs: seq<KeyValue>, key: string)
    requires forall f :: f in fs ==> f.0 != key && NoEqualsAtEnd(f.1)
    ensures Recovered(fs, key) == None
  {
    if fs != [] {
      assert fs[0] in fs;
      PlainEnd(fs[0].1, key);
      assert forall f :: f in fs[1..] ==> f in fs;
      NothingRecovered(fs[1..], key);
    }
  }

  /** The fields of a header without a version. */
  function Unversioned(p: Parts): seq<KeyValue> {
    [("did", p.did), ("nonce", p.nonce), ("timestamp", p.timestamp),
     ("verification_method", p.verificationMethod), ("signature", p.signature)]
  }

  lemma UnversionedAre(p: Parts, j: nat)
    requires AllPlain(p) && j < 5
    ensures Unversioned(p) == FieldsOf(p)[1..] && QuoteFree(Unversioned(p)) && DistinctKeys(Unversioned(p))
    ensures KeysApart(Unversioned(p), "v") && KeysApart(Unversioned(p), Unversioned(p)[j].0)
    ensures Unversioned(p)[j].0 != "v" && '"' !in "v" && Unversioned(p)[j].1 != ""
  {
    PlainFields(p);
    FieldsAre(p);
    assert FieldsOf(p)[j + 1] == Unversioned(p)[j] && FieldsOf(p)[0].0 == "v";
  }

  lemma RecoveredAmongPlain(fs: seq<KeyValue>, j: nat)
    requires j < |fs| && DistinctKeys(fs) && forall f :: f in fs ==> NoEqualsAtEnd(f.1)
    ensures Recovered(fs, fs[j].0) == Some(fs[j].1)
  {
    forall i | 0 <= i < j
      ensures !EndsWithKey(fs[i].1, fs[j].0)
    {
      assert fs[i] in fs;
      PlainEnd(fs[i].1, fs[j].0);
    }
    RecoveredIff(fs, j);
  }

  lemma UnversionedPlain(p: Parts)
    requires AllPlain(p) && forall f :: f in FieldsOf(p) ==> NoEqualsAtEnd(f.1)
    ensures forall f :: f in Unversioned(p) ==> f.0 != "v" && f.1 != "" && NoEqualsAtEnd(f.1)
  {
    forall f | f in Unversioned(p)
      ensures f.0 != "v" && f.1 != "" && NoEqualsAtEnd(f.1)
    {
      var j: nat :| j < 5 && Unversioned(p)[j] == f;
      UnversionedAre(p, j);
      assert f in FieldsOf(p);
    }
  }

  lemma NoVersionFound(p: Parts)
    requires AllPlain(p) && forall f :: f in FieldsOf(p) ==> NoEqualsAtEnd(f.1)
    ensures Search(RenderFields("DIDWba ", Unversioned(p)), "v") == None
  {
    var fs := Unversioned(p);
    UnversionedAre(p, 0);
    UnversionedPlain(p);
    SplitRendered("DIDWba ", fs);
    SearchByParts(RenderFields("DIDWba ", fs), "v");
    SearchRendered("DIDWba ", fs, "v");
    NothingRecovered(fs, "v");
  }

  lemma OtherFieldFound(p: Parts, j: nat)
    requires AllPlain(p) && j < 5 && forall f :: f in FieldsOf(p) ==> NoEqualsAtEnd(f.1)
    ensures Search(RenderFields("DIDWba ", Unversioned(p)), Unversioned(p)[j].0) == Some(Unversioned(p)[j].1)
  {
    UnversionedAre(p, j);
    UnversionedPlain(p);
    SearchFinds("DIDWba ", Unversioned(p), j);
    RecoveredAmongPlain(Unversioned(p), j);
  }

  lemma ExtractUnversioned(header: string, p: Parts)
    requires SCHEME <= LeftStrip(header) && Search(header, "v") == None
    requires forall j :: 0 <= j < 5 ==> Search(header, Unversioned(p)[j].0) == Some(Unversioned(p)[j].1)
    ensures Extract(header) == Some(p.(version := "1.1"))
  {
    var fs := Unversioned(p);
    assert Search(header, fs[0].0) == Some(fs[0].1) && Search(header, fs[1].0) == Some(fs[1].1)
        && Search(header, fs[2].0) == Some(fs[2].1) && Search(header, fs[3].0) == Some(fs[3].1)
        && Search(header, fs[4].0) == Some(fs[4].1);
  }

  /** A header without a version, of plain values that do not end in an equals sign, is read back with version 1.1. */
  lemma VersionDefaults(p: Parts)
    requires AllPlain(p) && forall f :: f in FieldsOf(p) ==> NoEqualsAtEnd(f.1)
    ensures Extract(RenderFields("DIDWba ", Unversioned(p))) == Some(p.(version := "1.1"))
  {
    var header := RenderFields("DIDWba ", Unversioned(p));
    NoVersionFound(p);
    forall j | 0 <= j < 5
      ensures Search(header, Unversioned(p)[j].0) == Some(Unversioned(p)[j].1)
    {
      OtherFieldFound(p, j);
    }
    assert header[0] == 'D' && SCHEME <= header;
    ExtractUnversioned(header, p);
  }

  // ---- signatures ----

  /** Ideal signatures of the holder of `key`: they check for that key and the signed payload alone. */
  ghost predicate SignsWith(sign: (Payload, string) -> string, valid: (PublicKey, Payload, string) -> bool,
                            key: PublicKey)
  {
    forall payload, fragment, other, claimed ::
      valid(other, claimed, sign(payload, fragment)) <==> other == key && claimed == payload
  }

  /** The key under which a document's methods answer to an id. */
  predicate Carries(doc: Document, id: string, key: PublicKey) {
    FindMethod(doc, id).Found? && FindMethod(doc, id).m.key == key
  }

  /** A generated header, shown for any document and domain, is accepted exactly when the domain is the signed one,
      the document has the signer's DID and the method looked up in it carries the signer's key. */
  lemma AcceptedIff(doc: Document, domain: string, version: string, nonce: string, timestamp: string,
                    sign: (Payload, string) -> string, usesAudience: string -> bool,
                    valid: (PublicKey, Payload, string) -> bool, key: PublicKey, p: Parts,
                    doc': Document, domain': string)
    requires Generate(doc, domain, version, nonce, timestamp, sign, usesAudience) == Some(p)
    requires Readable(p) && SignsWith(sign, valid, key)
    ensures Verify(Render(p), doc', domain', valid, usesAudience) <==>
      && domain' == domain
      && doc'.id.Some? && LowerCase(doc'.id.value) == LowerCase(p.did)
      && Carries(doc', p.did + "#" + p.verificationMethod, key)
  {
    VerifiesByParts(p, doc', domain', valid, usesAudience);
    var payload := Payload(nonce, timestamp, usesAudience(version), domain, p.did);
    CheckedIff(payload, p, sign, usesAudience, valid, key, doc', domain');
  }

  lemma CheckedIff(payload: Payload, p: Parts, sign: (Payload, string) -> string, usesAudience: string -> bool,
                   valid: (PublicKey, Payload, string) -> bool, key: PublicKey, doc: Document, domain: string)
    requires p.signature == sign(payload, p.verificationMethod) && SignsWith(sign, valid, key)
    requires payload == Payload(p.nonce, p.timestamp, usesAudience(p.version), payload.domain, p.did)
    ensures CheckParts(p, doc, domain, valid, usesAudience) <==>
      && domain == payload.domain
      && doc.id.Some? && LowerCase(doc.id.value) == LowerCase(p.did)
      && Carries(doc, p.did + "#" + p.verificationMethod, key)
  {
    var claimed := Payload(p.nonce, p.timestamp, usesAudience(p.version), domain, p.did);
    var found := FindMethod(doc, p.did + "#" + p.verificationMethod);
    if found.Found? {
      assert valid(found.m.key, claimed, p.signature) <==> found.m.key == key && claimed == payload;
    }
  }

  lemma VerifiesByParts(p: Parts, doc: Document, domain: string, valid: (PublicKey, Payload, string) -> bool,
                        usesAudience: string -> bool)
    requires Readable(p)
    ensures Verify(Render(p), doc, domain, valid, usesAudience) == CheckParts(p, doc, domain, valid, usesAudience)
  {
    RoundTripIff(p);
  }

  lemma {:induction false} LastPart(front: string, fragment: string)
    ensures Fragment(front + "#" + fragment) == Fragment(fragment)
  {
    if front == "" {
      assert "" + "#" + fragment == "" + ['#'] + fragment;
      SplitPart("", '#', fragment);
    } else {
      var text := front + "#" + fragment;
      LastPart(front[1..], fragment);
      assert text[1..] == front[1..] + "#" + fragment;
      HashRemains(front[1..], fragment);
    }
  }

  lemma HashRemains(front: string, fragment: string)
    ensures |Split(front + "#" + fragment, '#')| >= 2
  {
    var text := front + "#" + fragment;
    assert text[|front|] == '#';
    SplitHead(text, '#');
  }

  lemma {:induction false} FragmentHasNoHash(id: string)
    ensures '#' !in Fragment(id)
    ensures '#' !in id ==> Fragment(id) == id
  {
    SplitHead(id, '#');
    var n := Until(id, '#');
    if n < |id| {
      FragmentHasNoHash(id[n + 1..]);
      assert id[n] in id;
    }
  }

  /** The verifier looks for the id the signer went by exactly when that id is the DID, a hash and no further one. */
  lemma LookedUpIdIff(did: string, id: string)
    ensures did + "#" + Fragment(id) == id <==> exists fragment :: '#' !in fragment && id == did + "#" + fragment
  {
    if fragment :| '#' !in fragment && id == did + "#" + fragment {
      LastPart(did, fragment);
      FragmentHasNoHash(fragment);
    }
    if did + "#" + Fragment(id) == id {
      FragmentHasNoHash(id);
    }
  }

  /** The method the signer selects is the one found under its id, unless it is embedded and the verificationMethod
      list answers first. */
  lemma SelectedIsFoundIff(doc: Document, m: Method, id: string)
    requires SelectMethod(doc) == Some((m, id))
    ensures FindMethod(doc, id) == Found(m) <==>
      doc.authentication[0].Reference? || FindIn(doc.verificationMethod, id) in {NotFound, Found(m)}
  {
  }

  /** A document accepts the headers generated from it, when its authentication method has an id below its DID and
      that id leads back to the method. */
  lemma OwnHeaderAccepted(doc: Document, domain: string, version: string, nonce: string, timestamp: string,
                          sign: (Payload, string) -> string, usesAudience: string -> bool,
                          valid: (PublicKey, Payload, string) -> bool, p: Parts, m: Method, id: string)
    requires Generate(doc, domain, version, nonce, timestamp, sign, usesAudience) == Some(p)
    requires SelectMethod(doc) == Some((m, id)) && SignsWith(sign, valid, m.key) && Readable(p)
    requires exists fragment :: '#' !in fragment && id == p.did + "#" + fragment
    requires doc.authentication[0].Reference? || FindIn(doc.verificationMethod, id) in {NotFound, Found(m)}
    ensures Verify(Render(p), doc, domain, valid, usesAudience)
  {
    LookedUpIdIff(p.did, id);
    SelectedIsFoundIff(doc, m, id);
    AcceptedIff(doc, domain, version, nonce, timestamp, sign, usesAudience, valid, m.key, p, doc, domain);
  }

  // ---- relative references ----

  lemma RelativeFragment(fragment: string)
    requires '#' !in fragment
    ensures Fragment("#" + fragment) == fragment
  {
    LastPart("", fragment);
    assert "" + "#" + fragment == "#" + fragment;
    FragmentHasNoHash(fragment);
  }

  /** A document whose authentication method goes by a relative id accepts its own headers if and only if a method under
      the full id carries the same key. */
  lemma RelativeReferenceIff(doc: Document, domain: string, version: string, nonce: string, timestamp: string,
                             sign: (Payload, string) -> string, usesAudience: string -> bool,
                             valid: (PublicKey, Payload, string) -> bool, p: Parts, m: Method, fragment: string)
    requires Generate(doc, domain, version, nonce, timestamp, sign, usesAudience) == Some(p)
    requires SelectMethod(doc) == Some((m, "#" + fragment)) && '#' !in fragment
    requires SignsWith(sign, valid, m.key) && Readable(p)
    ensures Verify(Render(p), doc, domain, valid, usesAudience) <==> Carries(doc, p.did + "#" + fragment, m.key)
  {
    RelativeFragment(fragment);
    AcceptedIff(doc, domain, version, nonce, timestamp, sign, usesAudience, valid, m.key, p, doc, domain);
  }

  /** A document whose only method goes by a relative id. */
  function RelativeDocument(did: string, fragment: string, key: PublicKey): Document {
    var id := "#" + fragment;
    Document(Some(did), [Method(Some(id), key)], [Reference(id)])
  }

  lemma RelativeIdDiffers(fragment: string, did: string, other: string)
    requires '#' !in fragment && did != ""
    ensures "#" + fragment != did + "#" + other
  {
    var relative, full := "#" + fragment, did + "#" + other;
    assert full[|did|] == '#';
    if |did| < |relative| {
      assert relative[|did|] == fragment[|did| - 1];
    }
  }

  lemma RelativeIdNotFound(did: string, fragment: string, key: PublicKey, claimed: string, other: string)
    requires '#' !in fragment && claimed != ""
    ensures FindMethod(RelativeDocument(did, fragment, key), claimed + "#" + other) == NotFound
  {
    var doc, id := RelativeDocument(did, fragment, key), claimed + "#" + other;
    RelativeIdDiffers(fragment, claimed, other);
    assert FindIn(doc.verificationMethod[1..], id) == NotFound;
    assert FindInEntries(doc, doc.authentication[1..], id) == NotFound;
  }

  /** Signing works with such a document, but it accepts no header at all. */
  lemma RelativeReferenceRejected(did: string, fragment: string, key: PublicKey, domain: string, version: string,
                                  nonce: string, timestamp: string, sign: (Payload, string) -> string,
                                  usesAudience: string -> bool, valid: (PublicKey, Payload, string) -> bool,
                                  header: string)
    requires did != "" && '#' !in fragment
    ensures Generate(RelativeDocument(did, fragment, key), domain, version, nonce, timestamp, sign, usesAudience).Some?
    ensures !Verify(header, RelativeDocument(did, fragment, key), domain, valid, usesAudience)
  {
    var doc := RelativeDocument(did, fragment, key);
    assert FindIn(doc.verificationMethod, "#" + fragment) == Found(doc.verificationMethod[0]);
    if Extract(header).Some? {
      var p := Extract(header).value;
      ExtractedIsPlain(header, p);
      RelativeIdNotFound(did, fragment, key, p.did, p.verificationMethod);
    }
  }

  // ---- which method is found ----

  ghost predicate OtherId(m: Method, id: string) {
    m.id.Some? && m.id.value != id
  }

  /** All methods ahead of place `i` have ids, and others. */
  ghost predicate ReachedPast(methods: seq<Method>, id: string, i: nat) {
    i <= |methods| && forall h :: 0 <= h < i ==> OtherId(methods[h], id)
  }

  lemma {:induction false} FindInIs(methods: seq<Method>, id: string) returns (i: nat)
    ensures ReachedPast(methods, id, i)
    ensures FindIn(methods, id)
         == if i == |methods| then NotFound else if methods[i].id.None? then Raised else Found(methods[i])
    ensures i < |methods| ==> !OtherId(methods[i], id)
  {
    if methods == [] || !OtherId(methods[0], id) {
      i := 0;
    } else {
      i := FindInIs(methods[1..], id);
      forall h | 0 <= h < i + 1
        ensures OtherId(methods[h], id)
      {
        if h > 0 { assert methods[h] == methods[1..][h - 1]; }
      }
      i := i + 1;
    }
  }

  /** A list of methods is searched in order, wherever the match stands: a method is found exactly when it has the id
      and all before it have others, and the search fails on a method without an id exactly when none before it
      matches. */
  lemma FindInIff(methods: seq<Method>, id: string, m: Method)
    ensures FindIn(methods, id) == Found(m) <==>
              exists i: nat :: i < |methods| && methods[i] == m && m.id == Some(id) && ReachedPast(methods, id, i)
    ensures FindIn(methods, id) == NotFound <==> ReachedPast(methods, id, |methods|)
    ensures FindIn(methods, id) == Raised <==>
              exists i: nat :: i < |methods| && methods[i].id == None && ReachedPast(methods, id, i)
  {
    var i := FindInIs(methods, id);
    forall k: nat | k < |methods| && ReachedPast(methods, id, k) && !OtherId(methods[k], id)
      ensures k == i
    {
      assert !(k < i) && !(i < k);
    }
  }

  predicate EmbedsId(entry: AuthEntry, id: string) {
    entry.Embedded? && entry.m.id == Some(id)
  }

  /** A reference never finds more than the list of methods does: behind it only embedded methods count. */
  lemma {:induction false} EntriesIff(doc: Document, entries: seq<AuthEntry>, id: string, m: Method)
    requires FindIn(doc.verificationMethod, id) == NotFound
    ensures FindInEntries(doc, entries, id) == Found(m) <==>
              exists i: nat :: FirstEmbedded(entries, id, i) && entries[i] == Embedded(m)
    ensures FindInEntries(doc, entries, id) == NotFound <==>
              forall i :: 0 <= i < |entries| ==> !EmbedsId(entries[i], id)
    ensures FindInEntries(doc, entries, id) != Raised
  {
    if entries != [] {
      EntriesIff(doc, entries[1..], id, m);
      if EmbedsId(entries[0], id) {
        assert FirstEmbedded(entries, id, 0);
      } else {
        forall i: nat
          ensures FirstEmbedded(entries, id, i) <==> i > 0 && FirstEmbedded(entries[1..], id, i - 1)
        {
          FirstOfRest(entries, id, i);
        }
        assert forall i: nat :: FirstEmbedded(entries[1..], id, i) ==> FirstEmbedded(entries, id, i + 1);
      }
    }
  }

  ghost predicate FirstEmbedded(entries: seq<AuthEntry>, id: string, i: nat) {
    i < |entries| && EmbedsId(entries[i], id) && forall h :: 0 <= h < i ==> !EmbedsId(entries[h], id)
  }

  lemma FirstOfRest(entries: seq<AuthEntry>, id: string, i: nat)
    requires entries != [] && !EmbedsId(entries[0], id)
    ensures FirstEmbedded(entries, id, i) <==> i > 0 && FirstEmbedded(entries[1..], id, i - 1)
  {
    if i > 0 {
      assert forall h :: 0 < h <= i && h < |entries| ==> entries[h] == entries[1..][h - 1];
      if FirstEmbedded(entries[1..], id, i - 1) {
        forall h | 0 <= h < i
          ensures !EmbedsId(entries[h], id)
        {
          if h > 0 { assert !EmbedsId(entries[1..][h - 1], id); }
        }
      }
    }
  }

  // ---- documents as they usually are ----

  /** Every method has an id below the DID and without a further hash, no two have the same one, and the first
      authentication entry is the reference to one of them. */
  ghost predicate UsualDocument(doc: Document, did: string, m: Method, fragment: string) {
    && doc.id == Some(did) && did != "" && '#' !in fragment && m.id == Some(did + "#" + fragment)
    && (exists i :: 0 <= i < |doc.verificationMethod| && doc.verificationMethod[i] == m)
    && (forall x :: x in doc.verificationMethod ==> x.id.Some?)
    && (forall i, j :: 0 <= i < j < |doc.verificationMethod| ==>
          doc.verificationMethod[i].id != doc.verificationMethod[j].id)
    && doc.authentication != [] && doc.authentication[0] == Reference(m.id.value)
  }

  lemma UsualMethodFound(doc: Document, did: string, m: Method, fragment: string)
    requires UsualDocument(doc, did, m, fragment)
    ensures FindMethod(doc, m.id.value) == Found(m)
  {
    var methods := doc.verificationMethod;
    var i: nat :| i < |methods| && methods[i] == m;
    forall h | 0 <= h < i
      ensures OtherId(methods[h], m.id.value)
    {
      assert methods[h] in methods && methods[h].id != methods[i].id;
    }
    assert ReachedPast(methods, m.id.value, i);
    FindInIff(methods, m.id.value, m);
  }

  /** A usual document, with its method at any place in the list, generates a header and accepts it for the same domain,
      and for no other. */
  lemma UsualDocumentAccepted(doc: Document, did: string, m: Method, fragment: string, domain: string,
                              version: string, nonce: string, timestamp: string,
                              sign: (Payload, string) -> string, usesAudience: string -> bool,
                              valid: (PublicKey, Payload, string) -> bool, domain': string)
    requires UsualDocument(doc, did, m, fragment) && SignsWith(sign, valid, m.key)
    ensures Generate(doc, domain, version, nonce, timestamp, sign, usesAudience).Some?
    ensures var p := Generate(doc, domain, version, nonce, timestamp, sign, usesAudience).value;
            && p.did == did && p.nonce == nonce && p.timestamp == timestamp && p.version == version
            && p.verificationMethod == fragment
            && (Readable(p) ==> (Verify(Render(p), doc, domain', valid, usesAudience) <==> domain' == domain))
  {
    UsualMethodFound(doc, did, m, fragment);
    LastPart(did, fragment);
    FragmentHasNoHash(fragment);
    assert SelectMethod(doc) == Some((m, m.id.value));
    var p := Generate(doc, domain, version, nonce, timestamp, sign, usesAudience).value;
    if Readable(p) {
      AcceptedIff(doc, domain, version, nonce, timestamp, sign, usesAudience, valid, m.key, p, doc, domain');
    }
  }
}
