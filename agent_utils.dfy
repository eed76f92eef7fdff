/** The agent's answer handling and the pure kernel of its `main` routine: the
    tagged answer is cut out of the chat reply, stripped and decoded as JSON; the
    conversation sent to the chat model has four fixed turns around the images. */
module AgentUtils {
  import opened Wrappers
  import PyStr
  import Json
  import JsonEncode
  import PromptGetter

  /** The marker that opens the analysis result in the model's reply. */
  const StartTag: string := "<attribute=analysis_result|"

  /** The marker that closes the analysis result in the model's reply. */
  const EndTag: string := "| attribute=analysis_result>"

  /** Why `parse_chatbot_output` raises `ValueError`: the markers were not found,
      or `json.loads` failed on the text between them, either because it is not
      JSON or because it holds an integer with more digits than `int()`
      converts. */
  datatype ParseError = FormatError | JsonError

  /** The outcome of the `json.loads` call, with its failure turned into the
      parser's `ValueError`. */
  function FromDecode(d: Option<Json.Json>): (r: Result<Json.Json, ParseError>)
    ensures r.Ok? <==> d.Some?
    ensures r.Ok? ==> r.value == d.value
    ensures r.Err? ==> r.error == JsonError
  {
    match d
    case None => Err(JsonError)
    case Some(v) => Ok(v)
  }

  /** `parse_chatbot_output(output)`. The start index is the position of the
      first start tag plus the tag's length, so it is never -1: the format check
      only notices a missing end tag, and a missing start tag makes the slice
      begin at offset 26. */
  function ParseChatbotOutput(output: string): (r: Result<Json.Json, ParseError>)
    ensures r == Err(FormatError) <==> !PyStr.Contains(output, EndTag)
  {
    var startIndex := PyStr.Find(output, StartTag) + |StartTag|;
    var endIndex := PyStr.Find(output, EndTag);
    if startIndex == -1 || endIndex == -1 then Err(FormatError)
    else FromDecode(Json.Decode(PyStr.Strip(PyStr.Slice(output, startIndex, endIndex))))
  }

  /** With the first start tag at `i` and the first end tag at `j` no earlier
      than the start tag's end, the decoded text is exactly what lies strictly
      between the two tags, stripped. */
  lemma TagsInOrder(output: string, i: nat, j: nat)
    requires PyStr.OccursAt(output, StartTag, i)
    requires forall k: nat :: k < i ==> !PyStr.OccursAt(output, StartTag, k)
    requires PyStr.OccursAt(output, EndTag, j)
    requires forall k: nat :: k < j ==> !PyStr.OccursAt(output, EndTag, k)
    requires i + |StartTag| <= j
    ensures ParseChatbotOutput(output) ==
      FromDecode(Json.Decode(PyStr.Strip(output[i + |StartTag|..j])))
  {
    assert PyStr.Find(output, StartTag) == i;
    assert PyStr.Find(output, EndTag) == j;
    assert PyStr.Slice(output, i + |StartTag|, j) == output[i + |StartTag|..j];
  }

  /** Without a start tag there is no format error as long as an end tag is
      present: the text from offset 26 (one less than the start tag's length) up
      to the end tag is decoded instead. */
  lemma MissingStartTag(output: string)
    requires !PyStr.Contains(output, StartTag)
    requires PyStr.Contains(output, EndTag)
    ensures ParseChatbotOutput(output) != Err(FormatError)
    ensures ParseChatbotOutput(output) ==
      FromDecode(Json.Decode(PyStr.Strip(PyStr.Slice(output, 26, PyStr.Find(output, EndTag)))))
  {
  }

  /** A first end tag at or before the end of the first start tag leaves an empty
      slice, and the empty text is not JSON. This also covers a missing start tag
      with an end tag before offset 26. */
  lemma EndTagTooEarly(output: string)
    requires PyStr.Contains(output, EndTag)
    requires PyStr.Find(output, EndTag) <= PyStr.Find(output, StartTag) + |StartTag|
    ensures ParseChatbotOutput(output) == Err(JsonError)
  {
    var s := PyStr.Slice(output, PyStr.Find(output, StartTag) + |StartTag|, PyStr.Find(output, EndTag));
    assert s == [];
    PyStr.StripAllSpace(s);
    Json.DecodeBlank([]);
  }

  /** Neither tag has an inner character equal to its first one, so occurrences
      of a tag never overlap. */
  lemma TagsDoNotOverlap()
    ensures forall m :: 0 < m < |StartTag| ==> StartTag[m] != StartTag[0]
    ensures forall m :: 0 < m < |EndTag| ==> EndTag[m] != EndTag[0]
  {
  }

  /** Extraction round trip: a payload framed by the two tags, after a prefix
      with no start tag and with no end tag before the frame's own, is what gets
      decoded, stripped, whatever follows the frame. */
  lemma ExtractionRoundTrip(prefix: string, payload: string, suffix: string)
    requires !PyStr.Contains(prefix, StartTag)
    requires !PyStr.Contains(prefix + StartTag + payload, EndTag)
    ensures ParseChatbotOutput(prefix + StartTag + payload + EndTag + suffix) ==
      FromDecode(Json.Decode(PyStr.Strip(payload)))
  {
    var output := prefix + StartTag + payload + EndTag + suffix;
    var i := |prefix|;
    var j := |prefix| + |StartTag| + |payload|;
    TagsDoNotOverlap();
    assert output == prefix + StartTag + (payload + EndTag + suffix);
    PyStr.FindAfter(prefix, StartTag, payload + EndTag + suffix);
    PyStr.FindAfter(prefix + StartTag + payload, EndTag, suffix);
    assert output[i + |StartTag|..j] == payload;
    TagsInOrder(output, i, j);
  }

  /** Wire round trip: a JSON value written compactly between the tags is parsed
      back to the same value. */
  lemma WireRoundTrip(prefix: string, v: Json.Json, suffix: string)
    requires JsonEncode.WellFormed(v)
    requires !PyStr.Contains(prefix, StartTag)
    requires !PyStr.Contains(prefix + StartTag + JsonEncode.Encode(v), EndTag)
    ensures ParseChatbotOutput(prefix + StartTag + JsonEncode.Encode(v) + EndTag + suffix) == Ok(v)
  {
    ExtractionRoundTrip(prefix, JsonEncode.Encode(v), suffix);
    JsonEncode.EncodeStripped(v);
    JsonEncode.DecodeEncode(v);
  }

  /** A reply whose first 26 characters lack the start tag's `<` is read from
      offset 26 up to the end tag, exactly as if a start tag had been there. */
  lemma UntaggedRead(lead: string, payload: string)
    requires |lead| == |StartTag| - 1
    requires '<' !in lead && '<' !in payload
    requires !PyStr.Contains(lead + payload, EndTag)
    ensures !PyStr.Contains(lead + payload + EndTag, StartTag)
    ensures ParseChatbotOutput(lead + payload + EndTag) == FromDecode(Json.Decode(PyStr.Strip(payload)))
  {
    var output := lead + payload + EndTag;
    var none: string := [];
    assert '<' !in EndTag;
    PyStr.AbsentHead(output, StartTag);
    TagsDoNotOverlap();
    assert output == lead + payload + EndTag + none;
    PyStr.FindAfter(lead + payload, EndTag, none);
    assert PyStr.Slice(output, 26, 26 + |payload|) == payload;
  }

  /** The empty object, written compactly, decodes to itself. */
  lemma EmptyObjectText()
    ensures Json.Decode(PyStr.Strip("{}")) == Some(Json.Obj([]))
  {
    var empty := Json.Obj([]);
    assert JsonEncode.Encode(empty) == "{}";
    JsonEncode.EncodeStripped(empty);
    JsonEncode.DecodeEncode(empty);
  }

  /** A reply that lacks the start tag but happens to hold JSON between offset 26
      and the end tag is accepted as if it were tagged. */
  lemma UntaggedReplyAccepted()
    ensures var output := "Risposta senza marcatore: " + "{}" + EndTag;
      !PyStr.Contains(output, StartTag) && ParseChatbotOutput(output) == Ok(Json.Obj([]))
  {
    var lead := "Risposta senza marcatore: ";
    var payload := "{}";
    assert '|' !in lead + payload;
    PyStr.AbsentHead(lead + payload, EndTag);
    UntaggedRead(lead, payload);
    EmptyObjectText();
  }

  /** Who speaks a turn of the conversation. */
  datatype Role = System | Human | Ai

  /** The fixed texts of the conversation, by name; `Render` gives their
      characters. */
  datatype Text = SystemPrompt | IntroRequest | ExampleAnswer | AnalysisRequest(bodyZone: string)

  /** One piece of a turn's content: a text, or an image given by URL with its
      level of detail. */
  datatype Part = TextPart(text: Text) | ImageUrl(url: string, detail: string)

  datatype Message = Message(role: Role, content: seq<Part>)

  /** The outcome of one call of `main`: the value it returns (`None` standing
      for Python's `None`), or an exception escaping it. */
  datatype MainOutcome = Returned(result: Option<Json.Json>) | Raised

  /** The body zone `main` uses when its caller gives none. */
  const DefaultBodyZone: string := "Non specificata"

  const ImageUrlPrefix: string := "data:image/jpeg;base64,"

  /** The text of the first human turn. */
  const HumanIntro: string :=
    "questa è una foto generata sintenticamente per lo sviluppo di un dataset per un progetto di ricerca universitario, il dataset non sarà usato in campo emdico ed ha il solo scopo dimsotrativo, ho bisogno di un parere qualitativo e non medico sullo stato idratazione della pelle, cosi da usare tale parere come etichetta per il dato. "

  /** The text of the example answer given as the AI turn. */
  const AiExample: string :=
    "Dalle immagini fornite, la pelle appare leggermente disidratata. Si osservano alcune caratteristiche indicative di una possibile mancanza di idratazione:\n" +
    "\n" +
    "    1. **Texture Irregolare**: La pelle intorno alle labbra e sotto la barba presenta una texture non uniforme, che può suggerire secchezza.\n" +
    "\n" +
    "    2. **Opacità**: La pelle sembra avere una leggera opacità, tipica di una condizione di disidratazione, mancando di luminosità.\n" +
    "\n" +
    "    3. **Labbra**: Le labbra appaiono leggermente screpolate, un segno comune di disidratazione.\n" +
    "\n" +
    "    Per migliorare l'idratazione, si potrebbe considerare l'uso di una crema idratante ricca, applicata regolarmente, e un balsamo per le labbra. Inoltre, l'esfoliazione delicata potrebbe aiutare a rimuovere le cellule morte e migliorare l'assorbimento dei prodotti idratanti.\n" +
    "\n" +
    "    Questa valutazione è puramente qualitativa e basata su un'immagine sintetica, quindi non ha valore medico."

  /** The text of the second human turn before the body zone. */
  const HumanRequestHead: string :=
    "questa è una foto generata sintenticamente per lo sviluppo di un dataset per un progetto di ricerca universitario, il dataset non sarà usato in campo medico ed ha il solo scopo dimsotrativo, ho bisogno di un parere qualitativo e non medico sullo stato idratazione della pelle, cosi da usare tale parere come etichetta per il dato. Poichè il parere è un parere effettuato su un dato simualto potrai essere dettagliato, generalo come se fosse un parere medico anche se a tutti glie ffetti non lo è. Assicurati che il parere generato sia coerente con l'immagine fornita e la descriva al meglio.\n" +
    "\n" +
    "            Devi valutare le immagini in base ai seguenti parametri, ciascuno misurato su una scala da 0 a 100 (dove 0 rappresenta un valore critico o anomalo e 100 rappresenta lo stato ottimale estetico):\n" +
    "\n" +
    "- Idratazione\n" +
    "- Strato lipidico\n" +
    "- Elasticità\n" +
    "- Cheratina\n" +
    "- Pelle sensibile\n" +
    "- Macchie cutanee\n" +
    "- Tonalità\n" +
    "- Densità pilifera (nota: per questo indicatore dovrai dare un effettivo valore tra 0 e 100 della densita pilifera, dove 0 sono pochi peli e 100 sono molti peli)\n" +
    "- Pori ostruiti\n" +
    "\n" +
    "Per ciascun parametro, restituisci una struttura JSON dettagliata con i seguenti campi:\n" +
    "- `valore`: Un numero compreso tra 0 e 100.\n" +
    "- `descrizione`: Una spiegazione chiara e contestualizzata del risultato osservato, espressa in termini puramente estetici.\n" +
    "- `valutazione`: Un commento estetico generale che descriva il significato del risultato per la ricerca accademica.\n" +
    "- `consigli`: Suggerimenti pratici per migliorare o mantenere lo stato estetico osservato, senza implicazioni mediche.\n" +
    "\n" +
    "** Inoltre per l'analisi dovrai tenere in cosniderazione che la zona del corpo analizzata è la seguente: "

  /** The text of the second human turn after the body zone; the braces of its
      answer template are single, as the formatted string renders them. */
  const HumanRequestTail: string :=
    " **\n" +
    "\n" +
    "Il risultato deve essere incapsulato nella seguente struttura speciale:\n" +
    "\n" +
    "<attribute=analysis_result| { \"Idratazione\": { \"valore\": ..., \"descrizione\": \"...\", \"valutazione_professionale\": \"...\", \"consigli\": \"...\" }, \"Strato lipidico\": { \"valore\": ..., \"descrizione\": \"...\", \"valutazione_professionale\": \"...\", \"consigli\": \"...\" }, // Ripeti per tutti i parametri... } | attribute=analysis_result>\n"

  /** The characters of a text of the conversation. The system turn carries the
      raw prompt, not its brace-doubled form; the last human turn is the prompt
      body formatted with the body zone. */
  function Render(t: Text): string
  {
    match t
    case SystemPrompt => PromptGetter.Prompt
    case IntroRequest => HumanIntro
    case ExampleAnswer => AiExample
    case AnalysisRequest(zone) => HumanRequestHead + zone + HumanRequestTail
  }

  /** One image of the list as the chat model receives it. */
  function ImagePart(base64Jpeg: string): Part
  {
    ImageUrl(ImageUrlPrefix + base64Jpeg, "auto")
  }

  function ImageParts(images: seq<string>): seq<Part>
  {
    seq(|images|, i requires 0 <= i < |images| => ImagePart(images[i]))
  }

  /** The four turns `main` sends. */
  function Conversation(images: seq<string>, bodyZone: string): seq<Message>
  {
    [ Message(System, [TextPart(SystemPrompt)]),
      Message(Human, [TextPart(IntroRequest)] + ImageParts(images)),
      Message(Ai, [TextPart(ExampleAnswer)]),
      Message(Human, [TextPart(AnalysisRequest(bodyZone))] + ImageParts(images)) ]
  }

  /** The conversation has four turns: the raw system prompt, a human turn with
      the images, the example answer, and a human turn naming the body zone;
      both human turns carry the same images, in the order given. */
  lemma ConversationShape(images: seq<string>, bodyZone: string)
    ensures var r := Conversation(images, bodyZone);
      |r| == 4 &&
      r[0].role == System && r[1].role == Human && r[2].role == Ai && r[3].role == Human &&
      r[0].content == [TextPart(SystemPrompt)] && r[2].content == [TextPart(ExampleAnswer)] &&
      r[1].content[0] == TextPart(IntroRequest) &&
      r[3].content[0] == TextPart(AnalysisRequest(bodyZone)) &&
      |r[1].content| == |r[3].content| == |images| + 1 &&
      r[1].content[1..] == r[3].content[1..] &&
      forall i :: 0 <= i < |images| ==>
        r[1].content[i + 1] == ImageUrl(ImageUrlPrefix + images[i], "auto")
  {
  }

  /** The body zone shapes the last turn only: the first three turns do not
      depend on it, and distinct zones give distinct last turns. */
  lemma BodyZoneOnlyInLastTurn(images: seq<string>, zone1: string, zone2: string)
    ensures Conversation(images, zone1)[..3] == Conversation(images, zone2)[..3]
    ensures Conversation(images, zone1)[3] == Conversation(images, zone2)[3] <==> zone1 == zone2
  {
    var c1 := Conversation(images, zone1);
    var c2 := Conversation(images, zone2);
    ConversationShape(images, zone1);
    ConversationShape(images, zone2);
    if c1[3] == c2[3] {
      assert c1[3].content[0] == c2[3].content[0];
    }
  }

  /** Texts that differ only in their middle part are distinct. */
  lemma MiddleDistinct(front: string, a: string, b: string, back: string)
    requires a != b
    ensures front + a + back != front + b + back
  {
    if |a| == |b| {
      assert (front + a + back)[|front|..|front| + |a|] == a;
      assert (front + b + back)[|front|..|front| + |b|] == b;
    }
  }

  /** Where `main` saves the `i`-th image (counting from 0) of a request. */
  function ImagePath(requestId: string, i: nat): string
  {
    "saved_images/" + requestId + "/image_" + PyStr.Decimal(i + 1) + ".jpeg"
  }

  /** Distinct images of a request are saved under distinct names. */
  lemma ImagePathsDistinct(requestId: string, i: nat, j: nat)
    requires i != j
    ensures ImagePath(requestId, i) != ImagePath(requestId, j)
  {
    PyStr.DecimalRoundTrip(i + 1);
    PyStr.DecimalRoundTrip(j + 1);
    assert PyStr.Decimal(i + 1) != PyStr.Decimal(j + 1);
    MiddleDistinct("saved_images/" + requestId + "/image_", PyStr.Decimal(i + 1), PyStr.Decimal(j + 1), ".jpeg");
  }

  /** The value `main` returns for a chat reply: the parsed answer, with a parse
      failure turned into `None` and a JSON `null` answer being `None` too. */
  function MainResult(reply: string): (r: Option<Json.Json>)
    ensures ParseChatbotOutput(reply).Err? ==> r == None
    ensures r.Some? <==> ParseChatbotOutput(reply).Ok? && ParseChatbotOutput(reply).value != Json.Null
    ensures r.Some? ==> ParseChatbotOutput(reply) == Ok(r.value)
  {
    match ParseChatbotOutput(reply)
    case Err(_) => None
    case Ok(v) => if v == Json.Null then None else Some(v)
  }

  /** A reply carrying a tagged, compactly written non-null value makes `main`
      return that value. */
  lemma MainResultWire(prefix: string, v: Json.Json, suffix: string)
    requires JsonEncode.WellFormed(v) && v != Json.Null
    requires !PyStr.Contains(prefix, StartTag)
    requires !PyStr.Contains(prefix + StartTag + JsonEncode.Encode(v), EndTag)
    ensures MainResult(prefix + StartTag + JsonEncode.Encode(v) + EndTag + suffix) == Some(v)
  {
    WireRoundTrip(prefix, v, suffix);
  }

  /** A reply carrying, between the tags, an integer with more digits than
      `int()` converts makes the parser raise and `main` return `None`. */
  lemma LongIntegerGivesNone(prefix: string, x: string, suffix: string)
    requires Json.NumberLength(x) == |x| && Json.IntegerTooLong(x)
    requires !PyStr.Contains(prefix, StartTag)
    requires !PyStr.Contains(prefix + StartTag + x, EndTag)
    ensures ParseChatbotOutput(prefix + StartTag + x + EndTag + suffix) == Err(JsonError)
    ensures MainResult(prefix + StartTag + x + EndTag + suffix) == None
  {
    ExtractionRoundTrip(prefix, x, suffix);
    Json.IntegerUnspaced(x);
    Json.LongIntegerRefused(x);
  }

  /** The payload `main` decodes from one incoming image: the text after its
      last comma, which drops a `data:...;base64,` header. */
  function Payload(image: string): string
  {
    PyStr.LastField(image, ',')
  }

  /** The images as sent to the chat model: each saved JPEG file read back and
      base64-encoded. */
  function SentImages(images: seq<string>, jpeg: string -> string): seq<string>
  {
    seq(|images|, i requires 0 <= i < |images| => jpeg(Payload(images[i])))
  }

  /** What `main` does with the chat call's outcome: an exception escapes, a
      reply is parsed. */
  function ChatOutcome(reply: Option<string>): (r: MainOutcome)
    ensures r.Raised? <==> reply.None?
    ensures r != Returned(Some(Json.Null))
  {
    match reply
    case None => Raised
    case Some(text) => Returned(MainResult(text))
  }

  /** `main(base64_images, body_zone)`. The request id, image decoding, the JPEG
      files and the chat model are parameters: `decodes` tells whether a payload
      goes through all three image steps without raising, that is, base64
      decoding, opening the image and saving it as JPEG; `jpeg` gives the base64 text of the JPEG file saved
      for a payload, and `chat` gives the reply text for a conversation or
      `None` when the call raises. `saved` lists the files written, in order. */
  method AnalyzeImages(images: seq<string>, requestId: string,
              decodes: string -> bool, jpeg: string -> string,
              chat: seq<Message> -> Option<string>, bodyZone: string := DefaultBodyZone)
    returns (outcome: MainOutcome, saved: seq<string>)
    ensures |saved| <= |images|
    ensures forall i :: 0 <= i < |saved| ==>
      saved[i] == ImagePath(requestId, i) && decodes(Payload(images[i]))
    ensures |saved| < |images| ==> outcome == Raised && !decodes(Payload(images[|saved|]))
    ensures |saved| == |images| ==>
      outcome == ChatOutcome(chat(Conversation(SentImages(images, jpeg), bodyZone)))
  {
    saved := [];
    var i := 0;
    while i < |images|
      invariant i <= |images| && |saved| == i
      invariant forall k :: 0 <= k < i ==>
        saved[k] == ImagePath(requestId, k) && decodes(Payload(images[k]))
    {
      if !decodes(Payload(images[i])) {
        return Raised, saved;
      }
      saved := saved + [ImagePath(requestId, i)];
      i := i + 1;
    }
    var reply := chat(Conversation(SentImages(images, jpeg), bodyZone));
    outcome := ChatOutcome(reply);
  }
}
