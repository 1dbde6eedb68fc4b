/** The image and translation helpers of the main page: the 512-byte
    chunking loop of `base64ToBlob`, the language lookup
    `getSelectedDescription`, and the list of translations that
    `handleTranslations` seeds and each successful `callai21` extends. */
module App {
  import opened Wrappers

  /** One element of a `Uint8Array`. */
  newtype byte = x: int | 0 <= x < 256

  const ChunkSize: nat := 512

  function Min(a: int, b: int): int {
    if a <= b then a else b
  }

  /** The conversion `Uint8Array` applies to each number it is given:
      reduction modulo 256. */
  function ToUint8(n: int): (b: byte)
    ensures 0 <= n < 256 ==> b as int == n
    ensures (b as int - n) % 256 == 0
  {
    (n % 256) as byte
  }

  /** `new Uint8Array(byteNumbers)`. */
  function Uint8Array(byteNumbers: seq<int>): (r: seq<byte>)
    ensures |r| == |byteNumbers|
  {
    seq(|byteNumbers|, i requires 0 <= i < |byteNumbers| => ToUint8(byteNumbers[i]))
  }

  /** The bytes the decoded string stands for: each `charCodeAt`, as a
      `Uint8Array` element. */
  function CharCodes(s: string): seq<byte> {
    seq(|s|, i requires 0 <= i < |s| => ToUint8(s[i] as int))
  }

  /** The output of `atob`: every character code fits in a byte. */
  predicate IsBinaryString(s: string) {
    forall i :: 0 <= i < |s| ==> s[i] as int < 256
  }

  /** On a binary string no byte is reduced: byte `i` is `charCodeAt(i)`. */
  lemma BinaryStringCodes(s: string)
    requires IsBinaryString(s)
    ensures |CharCodes(s)| == |s|
    ensures forall i :: 0 <= i < |s| ==> CharCodes(s)[i] as int == s[i] as int
  {
  }

  lemma CharCodesAppend(a: string, b: string)
    ensures CharCodes(a + b) == CharCodes(a) + CharCodes(b)
  {
  }

  /** The bytes of the chunks, read one chunk after the other. */
  function Flatten(chunks: seq<seq<byte>>): seq<byte> {
    if chunks == [] then [] else Flatten(chunks[..|chunks| - 1]) + chunks[|chunks| - 1]
  }

  /** The slice `byteCharacters.slice(offset, offset + 512)` of chunk `k`;
      `slice` stops at the end of the string. */
  function ChunkSlice(s: string, k: nat): string
    requires k * ChunkSize < |s|
  {
    s[k * ChunkSize .. Min(k * ChunkSize + ChunkSize, |s|)]
  }

  /** The chunking loop of `base64ToBlob`: for each offset 0, 512, 1024, ...
      below the length, the slice there is copied code by code into
      `byteNumbers` and pushed as one `Uint8Array`. The chunks are
      `ceil(n / 512)` many, all full but the last, byte `i` of chunk `k` is
      the code at `512 * k + i`, and together they are the string's bytes
      in order. */
  method Base64ToChunks(byteCharacters: string) returns (byteArrays: seq<seq<byte>>)
    ensures |byteArrays| == (|byteCharacters| + ChunkSize - 1) / ChunkSize
    ensures forall k :: 0 <= k < |byteArrays| ==>
      k * ChunkSize < |byteCharacters| && byteArrays[k] == CharCodes(ChunkSlice(byteCharacters, k))
    ensures forall k :: 0 <= k < |byteArrays| ==>
      0 < |byteArrays[k]| <= ChunkSize && (k < |byteArrays| - 1 ==> |byteArrays[k]| == ChunkSize)
    ensures Flatten(byteArrays) == CharCodes(byteCharacters)
  {
    var n := |byteCharacters|;
    byteArrays := [];
    var offset := 0;
    while offset < n
      invariant offset == ChunkSize * |byteArrays|
      invariant |byteArrays| > 0 ==> offset - ChunkSize < n
      invariant forall k :: 0 <= k < |byteArrays| ==>
        k * ChunkSize < n && byteArrays[k] == CharCodes(ChunkSlice(byteCharacters, k))
      invariant Flatten(byteArrays) == CharCodes(byteCharacters[..Min(offset, n)])
    {
      var slice := byteCharacters[offset .. Min(offset + ChunkSize, n)];
      var byteNumbers := new int[|slice|];
      for i := 0 to |slice|
        invariant forall j :: 0 <= j < i ==> byteNumbers[j] == slice[j] as int
      {
        byteNumbers[i] := slice[i] as int;
      }
      var byteArray := Uint8Array(byteNumbers[..]);
      assert byteArray == CharCodes(slice);
      assert slice == ChunkSlice(byteCharacters, |byteArrays|);
      assert byteCharacters[..Min(offset + ChunkSize, n)] == byteCharacters[..offset] + slice;
      CharCodesAppend(byteCharacters[..offset], slice);
      byteArrays := byteArrays + [byteArray];
      offset := offset + ChunkSize;
    }
    assert byteCharacters[..n] == byteCharacters;
  }

  /** One entry of the translation list. */
  datatype Translation = Translation(language: string, description: string)

  /** The description of the first entry for `selected`, if there is one. */
  function Lookup(languageResponse: seq<Translation>, selected: string): (r: Option<string>)
    ensures r.None? <==> forall i :: 0 <= i < |languageResponse| ==> languageResponse[i].language != selected
    ensures r.Some? ==>
      exists i :: FirstFor(languageResponse, selected, i) && r.value == languageResponse[i].description
  {
    if languageResponse == [] then None
    else if languageResponse[0].language == selected then
      assert FirstFor(languageResponse, selected, 0);
      Some(languageResponse[0].description)
    else
      var r := Lookup(languageResponse[1..], selected);
      if r.Some? then
        var i :| FirstFor(languageResponse[1..], selected, i) && r.value == languageResponse[1..][i].description;
        assert FirstFor(languageResponse, selected, i + 1);
        r
      else
        r
  }

  /** Entry `i` is the first one whose language is `selected`. */
  predicate FirstFor(languageResponse: seq<Translation>, selected: string, i: int) {
    && 0 <= i < |languageResponse|
    && languageResponse[i].language == selected
    && forall j :: 0 <= j < i ==> languageResponse[j].language != selected
  }

  /** `getSelectedDescription`: scans the list and returns at the first
      entry whose `Language` equals the selection; `undefined` (`None`) when
      the scan ends without one. */
  method GetSelectedDescription(languageResponse: seq<Translation>, languageSelected: string)
    returns (description: Option<string>)
    ensures description == Lookup(languageResponse, languageSelected)
  {
    for i := 0 to |languageResponse|
      invariant forall j :: 0 <= j < i ==> languageResponse[j].language != languageSelected
    {
      if languageResponse[i].language == languageSelected {
        assert FirstFor(languageResponse, languageSelected, i);
        LookupFirst(languageResponse, languageSelected, i);
        return Some(languageResponse[i].description);
      }
    }
    return None;
  }

  /** The lookup answers with the first matching entry. */
  lemma LookupFirst(languageResponse: seq<Translation>, selected: string, i: int)
    requires FirstFor(languageResponse, selected, i)
    ensures Lookup(languageResponse, selected) == Some(languageResponse[i].description)
  {
    var r := Lookup(languageResponse, selected);
    var k :| FirstFor(languageResponse, selected, k) && r.value == languageResponse[k].description;
    FirstForUnique(languageResponse, selected, i, k);
  }

  lemma FirstForUnique(languageResponse: seq<Translation>, selected: string, i: int, k: int)
    requires FirstFor(languageResponse, selected, i) && FirstFor(languageResponse, selected, k)
    ensures i == k
  {
  }

  /** The languages a description is translated into, in request order. */
  const Languages: seq<string> := ["Spanish", "French", "German"]

  const TranslationEndpoint: string := "/api/conversation/predict-ai21"

  /** The prompt sent for one language. */
  function TranslationPrompt(language: string, description: string): string {
    "Translate this to " + language + ": " + description
  }

  /** A prompt names its language and its description unambiguously, as
      long as the language name holds no colon. */
  lemma PromptDeterminesRequest(l1: string, d1: string, l2: string, d2: string)
    requires ':' !in l1 && ':' !in l2
    requires TranslationPrompt(l1, d1) == TranslationPrompt(l2, d2)
    ensures l1 == l2 && d1 == d2
  {
    var p := TranslationPrompt(l1, d1);
    FirstColonAfterLanguage(l1, d1);
    FirstColonAfterLanguage(l2, d2);
    assert |l1| == |l2|;
    assert l1 == p[18..18 + |l1|] == l2;
    assert d1 == p[18 + |l1| + 2..] == d2;
  }

  /** After the fixed 18-character lead-in, the first colon of a prompt
      is the one that ends the language name. */
  lemma FirstColonAfterLanguage(language: string, description: string)
    requires ':' !in language
    ensures var p := TranslationPrompt(language, description);
      && 18 + |language| < |p| && p[18 + |language|] == ':'
      && (forall j :: 18 <= j < 18 + |language| ==> p[j] != ':')
      && p[18..18 + |language|] == language
      && p[18 + |language| + 2..] == description
  {
    var h := "Translate this to ";
    assert |h| == 18;
    var p := TranslationPrompt(language, description);
    assert p == h + language + ": " + description;
    forall j | 18 <= j < 18 + |language| ensures p[j] != ':' {
      assert p[j] == language[j - 18];
    }
  }

  lemma LanguagesHaveNoColon()
    ensures forall i :: 0 <= i < |Languages| ==> ':' !in Languages[i]
  {
  }

  /** The fields of the shared translation payload the model keeps; the
      sampling constants ride along unchanged. */
  datatype Payload = Payload(prompt: string, maxTokens: int, endpoint: Option<string>)

  /** The requests `handleTranslations` should issue: one per language, in
      order, each carrying that language's prompt and the AI21 endpoint. */
  function TranslationRequests(description: string): seq<Payload> {
    seq(|Languages|, i requires 0 <= i < |Languages| =>
      Payload(TranslationPrompt(Languages[i], description), 200, Some(TranslationEndpoint)))
  }

  /** The list `handleTranslations` starts from. */
  function Seed(description: string): (languageResponse: seq<Translation>)
    ensures |languageResponse| == 1
    ensures Lookup(languageResponse, "English") == Some(description)
    ensures forall l :: l != "English" ==> Lookup(languageResponse, l) == None
  {
    [Translation("English", description)]
  }

  /** `handleTranslations`: seeds the list with the English original, then
      for each language overwrites the one shared payload's prompt and
      hands it to `callai21`, which sets the endpoint and sends the payload
      as it stands at that moment. */
  method HandleTranslations(description: string)
    returns (responseContainer: seq<Translation>, sent: seq<Payload>)
    ensures responseContainer == Seed(description)
    ensures sent == TranslationRequests(description)
  {
    var payload := Payload("", 200, None);
    responseContainer := [Translation("English", description)];
    sent := [];
    for i := 0 to |Languages|
      invariant sent == TranslationRequests(description)[..i]
      invariant i > 0 ==> payload.endpoint == Some(TranslationEndpoint)
      invariant payload.maxTokens == 200
    {
      payload := payload.(prompt := TranslationPrompt(Languages[i], description));
      payload := payload.(endpoint := Some(TranslationEndpoint));
      sent := sent + [payload];
    }
  }

  /** How one `callai21` call ended: with the model's text, or with an
      HTTP or network error. */
  datatype Outcome = Translated(outputText: string) | Failed

  /** One call settling: on success one entry is appended after the
      current ones, on failure nothing changes. */
  function Settle(languageResponse: seq<Translation>, language: string, outcome: Outcome): (r: seq<Translation>)
    ensures outcome.Translated? ==> r == languageResponse + [Translation(language, outcome.outputText)]
    ensures outcome.Failed? ==> r == languageResponse
  {
    if outcome.Translated? then languageResponse + [Translation(language, outcome.outputText)]
    else languageResponse
  }

  /** A call that settles, with its language, in completion order. */
  datatype Settlement = Settlement(language: string, outcome: Outcome)

  /** The list after the calls settle in the order given. */
  function SettleAll(languageResponse: seq<Translation>, settled: seq<Settlement>): seq<Translation> {
    if settled == [] then languageResponse
    else
      var last := settled[|settled| - 1];
      Settle(SettleAll(languageResponse, settled[..|settled| - 1]), last.language, last.outcome)
  }

  /** The entries the successful calls contribute, in completion order. */
  function Successes(settled: seq<Settlement>): (r: seq<Translation>)
    ensures |r| <= |settled|
  {
    if settled == [] then []
    else
      var last := settled[|settled| - 1];
      Successes(settled[..|settled| - 1])
        + (if last.outcome.Translated? then [Translation(last.language, last.outcome.outputText)] else [])
  }

  /** Whatever the completion order, the list is the seed followed by one
      entry per successful call, in the order the calls completed. */
  lemma {:induction false} SettleAllAppends(languageResponse: seq<Translation>, settled: seq<Settlement>)
    ensures SettleAll(languageResponse, settled) == languageResponse + Successes(settled)
    decreases |settled|
  {
    if settled != [] {
      var init := settled[..|settled| - 1];
      SettleAllAppends(languageResponse, init);
      var last := settled[|settled| - 1];
      if last.outcome.Translated? {
        var e := [Translation(last.language, last.outcome.outputText)];
        assert (languageResponse + Successes(init)) + e == languageResponse + (Successes(init) + e);
      } else {
        assert Successes(init) + [] == Successes(init);
      }
    }
  }

  /** Appending never changes what an earlier lookup found; a new entry is
      found only for a language the list did not hold yet. */
  lemma {:induction false} LookupAppend(languageResponse: seq<Translation>, e: Translation, selected: string)
    ensures Lookup(languageResponse + [e], selected)
      == if Lookup(languageResponse, selected).Some? then Lookup(languageResponse, selected)
         else if e.language == selected then Some(e.description)
         else None
  {
    var l := languageResponse + [e];
    var r := Lookup(languageResponse, selected);
    if r.Some? {
      var i :| FirstFor(languageResponse, selected, i) && r.value == languageResponse[i].description;
      assert FirstFor(l, selected, i);
      LookupFirst(l, selected, i);
    } else if e.language == selected {
      assert FirstFor(l, selected, |languageResponse|);
      LookupFirst(l, selected, |languageResponse|);
    } else {
      assert forall i :: 0 <= i < |l| ==> l[i].language != selected by {
        forall i | 0 <= i < |l| ensures l[i].language != selected {
          if i < |languageResponse| {
            assert l[i] == languageResponse[i];
          }
        }
      }
    }
  }

  /** Selecting English after the translations settle still shows the
      original description, whatever came back. */
  lemma {:induction false} EnglishSurvives(description: string, settled: seq<Settlement>)
    ensures Lookup(SettleAll(Seed(description), settled), "English") == Some(description)
    decreases |settled|
  {
    if settled != [] {
      var last := settled[|settled| - 1];
      var before := SettleAll(Seed(description), settled[..|settled| - 1]);
      EnglishSurvives(description, settled[..|settled| - 1]);
      if last.outcome.Translated? {
        LookupAppend(before, Translation(last.language, last.outcome.outputText), "English");
      }
    }
  }
}
