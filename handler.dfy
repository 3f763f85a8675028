/**
 The message routing of `handle_message` (bot.py:158-188): strip, reject an
 empty or an over-long text, detect the language, pick the direction, call
 the adapter and turn its result into one of the replies. Telegram's
 `reply_text` is replaced by the returned `Reply`; whether sending the reply
 inside the `try` block raised is the parameter `sendRaised`.
 */
module Handler {
  import opened Wrappers
  import opened Text
  import opened Cleaning
  import opened Detection
  import opened Translator

  /** The longest stripped text the bot accepts (bot.py:163). */
  const MaxLength: nat := 1000

  /** The replies of `handle_message`, one per `reply_text` call. */
  datatype Reply =
    | AskForText          // "Please send some text to translate!"
    | TooLong             // "Text too long! Keep it under 1000 characters."
    | Undetected          // "Couldn't detect language. Use Khmer or Chinese."
    | Translated(from: Lang, original: string, translation: string, poweredBy: Option<string>)
    | Failed              // "Translation failed. Try again later."
    | Error               // "Error during translation."

  /** Where a message goes before the adapter is involved. */
  datatype Route = Reject(reply: Reply) | Forward(text: string, from: Lang)

  /** The (source, target) pair of bot.py:174. */
  function Direction(l: Lang): (pair: (string, string))
    ensures pair.0 == Code(l) && pair.0 != pair.1
    ensures Supported(LangTags, pair.0) && Supported(LangTags, pair.1)
  {
    if l == Km then ("km", "zh") else ("zh", "km")
  }

  /** bot.py:159-174: the checks before the adapter is called, in order. */
  function RouteMessage(word: char -> bool, raw: string): Route {
    var text := Strip(raw);
    if text == [] then Reject(AskForText)
    else if |text| > MaxLength then Reject(TooLong)
    else
      match Detect(word, text)
      case None => Reject(Undetected)
      case Some(l) => Forward(text, l)
  }

  /** bot.py:179-188: the reply for the adapter's result. An empty translation
      counts as no translation. */
  function Respond(from: Lang, original: string, t: Translation, sendRaised: bool): Reply {
    if sendRaised then Error
    else if t.text.Some? && t.text.value != "" then
      Translated(from, original, t.text.value, if t.info != "" then Some(t.info) else None)
    else Failed
  }

  /** The reply `handle_message` sends, given the model flag before the call. */
  function HandleReply(word: char -> bool, raw: string, loaded: bool,
                       model: (string, string) -> ModelCall, sendRaised: bool): Reply
  {
    match RouteMessage(word, raw)
    case Reject(reply) => reply
    case Forward(text, l) =>
      var (source, target) := Direction(l);
      Respond(l, text, Outcome(loaded, LangTags, word, text, source, target, model), sendRaised)
  }

  /** The message reaches the adapter and the model call returns. */
  predicate CountsTranslation(word: char -> bool, raw: string, loaded: bool,
                              model: (string, string) -> ModelCall)
  {
    match RouteMessage(word, raw)
    case Reject(_) => false
    case Forward(text, l) =>
      var (source, target) := Direction(l);
      Succeeds(loaded, LangTags, word, text, source, target, model)
  }

  /** The checks come in order: an empty stripped text, then one longer than
      1000 characters, is rejected before detection; a text that is forwarded
      is the stripped text, between 1 and 1000 characters long, and its
      detected language. */
  lemma RouteOrder(word: char -> bool, raw: string)
    ensures Strip(raw) == [] ==> RouteMessage(word, raw) == Reject(AskForText)
    ensures Strip(raw) != [] && |Strip(raw)| > MaxLength ==> RouteMessage(word, raw) == Reject(TooLong)
    ensures RouteMessage(word, raw) == Reject(Undetected)
      <==> 0 < |Strip(raw)| <= MaxLength && Detect(word, Strip(raw)) == None
    ensures forall text, l ::
      (RouteMessage(word, raw) == Forward(text, l)
       <==> text == Strip(raw) && 0 < |text| <= MaxLength && Detect(word, text) == Some(l))
  {
  }

  /** A forwarded message passes the adapter's second and third guards: its
      cleaned text keeps the Khmer or CJK character it was detected by, and the
      direction pairs two configured codes. So "Empty text" and "Unsupported
      language" never come from `handle_message`; only "Model not loaded" can. */
  lemma RoutedPassesGuards(word: char -> bool, raw: string, loaded: bool)
    requires RouteMessage(word, raw).Forward?
    ensures var Forward(text, l) := RouteMessage(word, raw);
      Guard(loaded, LangTags, word, text, Direction(l).0, Direction(l).1)
        == if loaded then None else Some(NotLoaded)
  {
    var Forward(text, l) := RouteMessage(word, raw);
    DetectedHasScript(word, text);
    var i :| 0 <= i < |text| && (InKhmer(text[i]) || InCjk(text[i]));
    CleanMembership(word, text, text[i]);
    assert text[i] in Clean(word, text);
  }

  /** After routing, exactly three replies remain: the translation when the
      model is loaded and decodes a non-empty text, "Translation failed"
      otherwise, and "Error" when sending the reply raised. */
  lemma ForwardedReplies(word: char -> bool, raw: string, loaded: bool,
                         model: (string, string) -> ModelCall, sendRaised: bool)
    requires RouteMessage(word, raw).Forward?
    ensures var Forward(text, l) := RouteMessage(word, raw);
      var call := model(Clean(word, text), LangTags[Direction(l).1]);
      HandleReply(word, raw, loaded, model, sendRaised)
        == if sendRaised then Error
           else if loaded && call.Decoded? && call.text != "" then Translated(l, text, call.text, Some(Provenance))
           else Failed
  {
    RoutedPassesGuards(word, raw, loaded);
  }

  /** A translation is counted exactly when the model is loaded, the message is
      forwarded, and the model call returns. */
  lemma CountedTranslations(word: char -> bool, raw: string, loaded: bool,
                            model: (string, string) -> ModelCall)
    ensures CountsTranslation(word, raw, loaded, model) <==>
      && loaded
      && RouteMessage(word, raw).Forward?
      && model(Clean(word, RouteMessage(word, raw).text), LangTags[Direction(RouteMessage(word, raw).from).1]).Decoded?
  {
    if RouteMessage(word, raw).Forward? {
      RoutedPassesGuards(word, raw, loaded);
    }
  }

  /** The Khmer greeting `សួស្តី` is forwarded as Khmer, to be translated
      from `km` to `zh`. */
  lemma GreetingGoesKmToZh(word: char -> bool)
    ensures RouteMessage(word, "\U{179F}\U{17BD}\U{179F}\U{17D2}\U{178F}\U{17B8}")
      == Forward("\U{179F}\U{17BD}\U{179F}\U{17D2}\U{178F}\U{17B8}", Km)
    ensures Direction(Km) == ("km", "zh")
  {
    var s := "\U{179F}\U{17BD}\U{179F}\U{17D2}\U{178F}\U{17B8}";
    assert TrimStart(s) == s;
    assert TrimEnd(s) == s;
    GreetingIsKm(word);
  }

  /** `handle_message` (bot.py:158-188) against the shared adapter. */
  method HandleMessage(word: char -> bool, raw: string, adapter: NLLBTranslator,
                       model: (string, string) -> ModelCall, now: string, sendRaised: bool)
    returns (reply: Reply)
    requires adapter.Valid()
    modifies adapter
    ensures adapter.Valid()
    ensures reply == HandleReply(word, raw, old(adapter.modelLoaded), model, sendRaised)
    ensures adapter.modelLoaded == old(adapter.modelLoaded)
    ensures CountsTranslation(word, raw, old(adapter.modelLoaded), model) ==>
              adapter.translationCount == old(adapter.translationCount) + 1 && adapter.lastTime == Some(now)
    ensures !CountsTranslation(word, raw, old(adapter.modelLoaded), model) ==>
              adapter.translationCount == old(adapter.translationCount) && adapter.lastTime == old(adapter.lastTime)
  {
    var text := Strip(raw);
    if text == [] {
      return AskForText;
    }
    if |text| > MaxLength {
      return TooLong;
    }
    var detected := Detect(word, text);
    if detected == None {
      return Undetected;
    }
    var (source, target) := Direction(detected.value);
    var translation := adapter.Translate(word, text, source, target, model, now);
    reply := Respond(detected.value, text, translation, sendRaised);
  }
}
