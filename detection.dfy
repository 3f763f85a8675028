/**
 The language detector `detect_language` (bot.py:96-111). It keeps the word
 characters and the Khmer and CJK block characters of the text, then compares
 the share of each block with one tenth, Khmer first. Python's `\w` is the
 parameter `word`; the float test `k / t > 0.1` is the integer test `10 * k > t`.
 */
module Detection {
  import opened Wrappers
  import opened Text

  /** The two languages the bot supports. */
  datatype Lang = Km | Zh

  /** The language code `detect_language` returns and `lang_codes` is keyed by:
      `km` for Khmer and `zh` for Chinese, so distinct languages get distinct codes. */
  function Code(l: Lang): (code: string)
    ensures code == "km" <==> l == Km
    ensures code == "zh" <==> l == Zh
  {
    match l
    case Km => "km"
    case Zh => "zh"
  }

  /** The character class `[\wក-៿一-鿿]` of bot.py:97. */
  predicate Detectable(word: char -> bool, c: char) {
    word(c) || InKhmer(c) || InCjk(c)
  }

  function DetectClass(word: char -> bool): char -> bool {
    c => Detectable(word, c)
  }

  /** `detect_language`: `None` for a text with nothing detectable, otherwise
      `km` when more than a tenth of the kept characters are Khmer, else `zh`
      when more than a tenth are CJK, else `None`. The second emptiness test of
      bot.py:103 is subsumed by the first. */
  function Detect(word: char -> bool, text: string): Option<Lang> {
    var kept := Filter(DetectClass(word), text);
    if kept == [] then None
    else
      var khmer := Count(InKhmer, kept);
      var chinese := Count(InCjk, kept);
      var total := |kept|;
      if 10 * khmer > total then Some(Km)
      else if 10 * chinese > total then Some(Zh)
      else None
  }

  /** Khmer and CJK characters are detectable, and no character is in both blocks. */
  lemma BlocksDetectable(word: char -> bool)
    ensures forall c :: InKhmer(c) ==> DetectClass(word)(c)
    ensures forall c :: InCjk(c) ==> DetectClass(word)(c)
    ensures forall c :: !(InKhmer(c) && InCjk(c))
  {
  }

  /** The detector's outcome in terms of the whole text: with K Khmer and C CJK
      characters among T detectable ones, it is `km` exactly when 10K > T
      (whatever C is), `zh` exactly when 10K <= T < 10C, and `None` otherwise,
      which includes the text with nothing detectable (T = 0). */
  lemma DetectByShares(word: char -> bool, text: string)
    ensures var k, c, t := Count(InKhmer, text), Count(InCjk, text), Count(DetectClass(word), text);
      && (Detect(word, text) == Some(Km) <==> 10 * k > t)
      && (Detect(word, text) == Some(Zh) <==> 10 * k <= t && 10 * c > t)
      && (Detect(word, text) == None <==> 10 * k <= t && 10 * c <= t)
  {
    BlocksDetectable(word);
    CountFiltered(DetectClass(word), InKhmer, text);
    CountFiltered(DetectClass(word), InCjk, text);
    FilterLength(DetectClass(word), text);
  }

  /** The Khmer test comes first: a text more than a tenth Khmer is `km` even
      when it is also more than a tenth CJK. */
  lemma KhmerFirst(word: char -> bool, text: string)
    requires 10 * Count(InKhmer, text) > Count(DetectClass(word), text)
    ensures Detect(word, text) == Some(Km)
  {
    DetectByShares(word, text);
  }

  /** A text with no word, Khmer or CJK character, one made of spaces and
      symbols only for example, has no detectable language. */
  lemma NothingDetectable(word: char -> bool, text: string)
    requires forall i :: 0 <= i < |text| ==> !Detectable(word, text[i])
    ensures Detect(word, text) == None
  {
    DetectByShares(word, text);
    assert Count(DetectClass(word), text) == 0;
  }

  /** A detected language always comes from characters of its block: a detected
      text has a Khmer or a CJK character. */
  lemma DetectedHasScript(word: char -> bool, text: string)
    requires Detect(word, text).Some?
    ensures exists i :: 0 <= i < |text| && (InKhmer(text[i]) || InCjk(text[i]))
  {
    DetectByShares(word, text);
    var k, c := Count(InKhmer, text), Count(InCjk, text);
    assert k > 0 || c > 0;
    if k > 0 {
      var i :| 0 <= i < |text| && InKhmer(text[i]);
    } else {
      var i :| 0 <= i < |text| && InCjk(text[i]);
    }
  }

  /** A greeting written in Khmer only, such as `សួស្តី`, is detected as `km`. */
  lemma AllKhmerIsKm(word: char -> bool, text: string)
    requires text != []
    requires forall i :: 0 <= i < |text| ==> InKhmer(text[i])
    ensures Detect(word, text) == Some(Km)
  {
    DetectByShares(word, text);
    AllCounted(InKhmer, text);
    AllCounted(DetectClass(word), text);
  }

  /** `"សួស្តី"`, the Khmer greeting of the bot's help text, is detected as `km`. */
  lemma GreetingIsKm(word: char -> bool)
    ensures Detect(word, "\U{179F}\U{17BD}\U{179F}\U{17D2}\U{178F}\U{17B8}") == Some(Km)
  {
    var s := "\U{179F}\U{17BD}\U{179F}\U{17D2}\U{178F}\U{17B8}";
    assert forall i :: 0 <= i < |s| ==> InKhmer(s[i]);
    AllKhmerIsKm(word, s);
  }
}
