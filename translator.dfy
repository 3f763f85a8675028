/**
 The translation adapter `NLLBTranslator` (bot.py:28-93). Its `translate`
 runs three guards in a fixed order and only then calls the model; only a
 model call that returns updates the success counter and the timestamp.
 The model call (tokenizer, `generate`, `batch_decode`) is the parameter
 `model`, which maps the cleaned text and the target's model tag to what the
 call produced; the wall clock is the parameter `now`.
 */
module Translator {
  import opened Wrappers
  import opened Text
  import opened Cleaning

  /** What the model call produced: the first decoded output, or the text
      `str(e)` of the exception it raised. */
  datatype ModelCall = Decoded(text: string) | Raised(message: string)

  /** The pair `translate` returns: the translation or `None`, and the
      provenance label or the error reason. */
  datatype Translation = Translation(text: Option<string>, info: string)

  const NotLoaded: string := "Model not loaded"
  const EmptyText: string := "Empty text"
  const Unsupported: string := "Unsupported language"
  const Provenance: string := "NLLB (Meta)"

  /** `lang_codes` (bot.py:36-39): language code to model tag. */
  const LangTags: map<string, string> := map["km" := "khm_Khmr", "zh" := "zho_Hans"]

  /** `lang_codes.get(lang)` is truthy: the code is present with a non-empty tag. */
  predicate Supported(codes: map<string, string>, lang: string) {
    lang in codes && codes[lang] != ""
  }

  /** The first of the three guards of bot.py:66-76 that fails, with its reason. */
  function Guard(loaded: bool, codes: map<string, string>, word: char -> bool,
                 text: string, source: string, target: string): Option<string>
  {
    if !loaded then Some(NotLoaded)
    else if Clean(word, text) == [] then Some(EmptyText)
    else if !Supported(codes, source) || !Supported(codes, target) then Some(Unsupported)
    else None
  }

  /** What `translate` returns, given the model flag before the call. */
  function Outcome(loaded: bool, codes: map<string, string>, word: char -> bool,
                   text: string, source: string, target: string,
                   model: (string, string) -> ModelCall): Translation
  {
    match Guard(loaded, codes, word, text, source, target)
    case Some(reason) => Translation(None, reason)
    case None =>
      match model(Clean(word, text), codes[target])
      case Decoded(t) => Translation(Some(t), Provenance)
      case Raised(message) => Translation(None, message)
  }

  /** The model was called and returned: the only case that counts a translation. */
  predicate Succeeds(loaded: bool, codes: map<string, string>, word: char -> bool,
                     text: string, source: string, target: string,
                     model: (string, string) -> ModelCall)
  {
    && Guard(loaded, codes, word, text, source, target) == None
    && model(Clean(word, text), codes[target]).Decoded?
  }

  /** The guards are checked in order and the first failing one decides:
      an unloaded model wins over everything, then an empty cleaned text, then
      an unknown code; when none fails the model is called. */
  lemma GuardOrder(loaded: bool, codes: map<string, string>, word: char -> bool,
                   text: string, source: string, target: string)
    ensures !loaded ==> Guard(loaded, codes, word, text, source, target) == Some(NotLoaded)
    ensures loaded && Clean(word, text) == [] ==> Guard(loaded, codes, word, text, source, target) == Some(EmptyText)
    ensures loaded && Clean(word, text) != [] && !(Supported(codes, source) && Supported(codes, target))
      ==> Guard(loaded, codes, word, text, source, target) == Some(Unsupported)
    ensures Guard(loaded, codes, word, text, source, target) == None
      <==> loaded && Clean(word, text) != [] && Supported(codes, source) && Supported(codes, target)
  {
  }

  /** The result is a discriminated outcome: a translation is present exactly
      when the call succeeded, and then it is what the model decoded (possibly
      empty) with the provenance label; otherwise the second component is the
      failing guard's reason or the exception's text. */
  lemma OutcomeShape(loaded: bool, codes: map<string, string>, word: char -> bool,
                     text: string, source: string, target: string,
                     model: (string, string) -> ModelCall)
    ensures var r := Outcome(loaded, codes, word, text, source, target, model);
      && (r.text.Some? <==> Succeeds(loaded, codes, word, text, source, target, model))
      && (r.text.Some? ==> r == Translation(Some(model(Clean(word, text), codes[target]).text), Provenance))
      && (Guard(loaded, codes, word, text, source, target).Some? ==>
            r == Translation(None, Guard(loaded, codes, word, text, source, target).value))
      && (Guard(loaded, codes, word, text, source, target) == None && model(Clean(word, text), codes[target]).Raised? ==>
            r == Translation(None, model(Clean(word, text), codes[target]).message))
  {
  }

  /** The configured codes are exactly `km` and `zh`; every other code, `fr`
      for instance, is unsupported. */
  lemma SupportedCodes(lang: string)
    ensures Supported(LangTags, lang) <==> lang == "km" || lang == "zh"
  {
  }

  /** A text of whitespace only cleans to nothing, so a loaded adapter rejects
      it with "Empty text". */
  lemma BlankTextIsEmpty(word: char -> bool, text: string, source: string, target: string)
    requires forall i :: 0 <= i < |text| ==> IsSpace(text[i])
    ensures Guard(true, LangTags, word, text, source, target) == Some(EmptyText)
  {
    StripShape(text);
    CleanEmpty(word, text);
  }

  /** The adapter's state. `langCodes` never changes; the counter and the
      timestamp change only through a successful `Translate`. */
  class NLLBTranslator {
    const langCodes: map<string, string>
    var modelLoaded: bool
    var translationCount: nat
    var lastTime: Option<string>

    /** No success has been counted without a timestamp, and none at all while
        the model is not loaded (loading is never retried). */
    ghost predicate Valid()
      reads this
    {
      && langCodes == LangTags
      && (translationCount == 0 <==> lastTime == None)
      && (!modelLoaded ==> translationCount == 0)
    }

    /** `__init__`: `loadSucceeded` is whether loading the tokenizer and the
        model (bot.py:41-55) raised nothing. */
    constructor (loadSucceeded: bool)
      ensures Valid()
      ensures modelLoaded == loadSucceeded && translationCount == 0 && lastTime == None
    {
      langCodes := LangTags;
      modelLoaded := loadSucceeded;
      translationCount := 0;
      lastTime := None;
    }

    /** `translate` (bot.py:65-93). */
    method Translate(word: char -> bool, text: string, source: string, target: string,
                     model: (string, string) -> ModelCall, now: string) returns (r: Translation)
      requires Valid()
      modifies this
      ensures Valid()
      ensures r == Outcome(old(modelLoaded), langCodes, word, text, source, target, model)
      ensures modelLoaded == old(modelLoaded)
      ensures Succeeds(old(modelLoaded), langCodes, word, text, source, target, model) ==>
                translationCount == old(translationCount) + 1 && lastTime == Some(now)
      ensures !Succeeds(old(modelLoaded), langCodes, word, text, source, target, model) ==>
                translationCount == old(translationCount) && lastTime == old(lastTime)
    {
      if !modelLoaded {
        return Translation(None, NotLoaded);
      }
      var cleaned := Clean(word, text);
      if cleaned == [] {
        return Translation(None, EmptyText);
      }
      var sourceCode := if source in langCodes then Some(langCodes[source]) else None;
      var targetCode := if target in langCodes then Some(langCodes[target]) else None;
      if sourceCode == None || sourceCode.value == "" || targetCode == None || targetCode.value == "" {
        return Translation(None, Unsupported);
      }
      var call := model(cleaned, targetCode.value);
      match call {
        case Decoded(translated) =>
          translationCount := translationCount + 1;
          lastTime := Some(now);
          r := Translation(Some(translated), Provenance);
        case Raised(message) =>
          r := Translation(None, message);
      }
    }
  }
}
