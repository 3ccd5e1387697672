/** The two language-model calls of the server: relevance scoring of a
    Reddit post and generation of an outreach message.  The model provider
    is an oracle; what is modelled is how its answer (or its failure) is
    turned into the value the callers see. */
module AiService {
  import opened Basics
  import opened Text
  import opened JsParseInt

  /** What a chat-completion call produced: the message content (which the
      provider may leave null), or a thrown error of any kind. */
  datatype LlmReply = Answered(content: Option<string>) | CallFailed

  /** `Math.min(100, Math.max(0, v))`. */
  function Clamp(v: int): (r: int)
    ensures 0 <= r <= 100
    ensures 0 <= v <= 100 ==> r == v
    ensures v > 100 ==> r == 100
    ensures v < 0 ==> r == 0
  {
    if v > 100 then 100 else if v < 0 then 0 else v
  }

  /** `analyzePostRelevance`: the trimmed answer is read with `parseInt`;
      NaN gives 0, a number is clamped to [0, 100], and any exception
      (a failed call, or `trim` on a null content) gives 0. */
  function RelevanceScore(reply: LlmReply): (score: int)
    ensures 0 <= score <= 100
    ensures reply.CallFailed? || reply.content.None? ==> score == 0
    ensures reply.Answered? && reply.content.Some? ==>
      match ParseInt(Trim(reply.content.value))
      case NaN => score == 0
      case Num(v) => score == Clamp(v)
  {
    match reply
    case CallFailed => 0
    case Answered(None) => 0
    case Answered(Some(text)) =>
      match ParseInt(Trim(text))
      case NaN => 0
      case Num(v) => Clamp(v)
  }

  /** An answer whose text is a number written in decimal, followed by
      anything that does not extend the digits (such as "%"), scores that
      number clamped to [0, 100]: exactly the number when it is in range. */
  lemma ScoreOfLeadingNumber(n: nat, rest: string)
    requires |rest| == 0 || !IsDigit(rest[0], 10)
    requires |rest| > 0 && n == 0 ==> rest[0] != 'x' && rest[0] != 'X'
    ensures RelevanceScore(Answered(Some(ShowNat(n) + rest))) == Clamp(n)
  {
    var d := ShowNat(n);
    var tail := TrimEnd(rest);
    TrimOfDigitsThen(d, rest);
    DigitsValueOfShowNat(n);
    assert |tail| > 0 ==> tail[0] == rest[0];
    assert !HasHexPrefix(d + tail) by {
      if n != 0 { assert d[0] != '0'; assert (d + tail)[0] == d[0]; }
      else { assert d == "0"; }
    }
    DecimalPrefix(d, tail);
    assert ParseInt(Trim(d + rest)) == Num(n);
  }

  /** Trimming digits followed by `rest` trims only the end of `rest`. */
  lemma TrimOfDigitsThen(d: string, rest: string)
    requires |d| > 0 && AllDigits(d, 10)
    ensures Trim(d + rest) == d + TrimEnd(rest)
  {
    var text := d + rest;
    assert text[0] == d[0];
    DigitIsVisible(d[0], 10);
    TrimStartOfVisible(text);
    DigitIsVisible(d[|d| - 1], 10);
    TrimEndKeepsNonSpacePrefix(d, rest);
  }

  /** Trimming the end of `d + t` keeps all of `d` when `d` ends in a
      non-space character. */
  lemma {:induction false} TrimEndKeepsNonSpacePrefix(d: string, t: string)
    requires |d| > 0 && !IsSpace(d[|d| - 1])
    ensures TrimEnd(d + t) == d + TrimEnd(t)
    decreases |t|
  {
    if |t| > 0 && IsSpace(t[|t| - 1]) {
      assert (d + t)[..|d + t| - 1] == d + t[..|t| - 1];
      TrimEndKeepsNonSpacePrefix(d, t[..|t| - 1]);
    } else if |t| == 0 {
      assert d + t == d;
    }
  }

  /** Every score in [0, 100] can be produced: the model's decimal answer
      is scored as itself. */
  lemma ScoreOfNumber(n: nat)
    requires n <= 100
    ensures RelevanceScore(Answered(Some(ShowNat(n)))) == n
  {
    ScoreOfLeadingNumber(n, "");
    assert ShowNat(n) + "" == ShowNat(n);
  }

  /** An answer above the range scores 100: "150" scores 100. */
  lemma ScoreAboveRange(text: string)
    requires text == "150"
    ensures RelevanceScore(Answered(Some(text))) == 100
  {
    assert ShowNat(150) == text by {
      assert ShowNat(1) == "1";
      assert ShowNat(15) == ShowNat(1) + "5";
    }
    ScoreOfLeadingNumber(150, "");
    assert ShowNat(150) + "" == text;
  }

  /** A negative decimal answer scores 0. */
  lemma ScoreOfNegative(n: nat)
    ensures RelevanceScore(Answered(Some("-" + ShowNat(n)))) == 0
  {
    var d := ShowNat(n);
    var text := "-" + d;
    assert text[|text| - 1] == d[|d| - 1];
    DigitIsVisible(d[|d| - 1], 10);
    TrimOfVisibleEnds(text);
    ParseNegative(n);
    assert ParseInt(Trim(text)) == Num(-(n as int));
  }

  /** "-10" scores 0. */
  lemma ScoreBelowRange(text: string)
    requires text == "-10"
    ensures RelevanceScore(Answered(Some(text))) == 0
  {
    assert ShowNat(10) == "10" by {
      assert ShowNat(1) == "1";
    }
    assert text == "-" + ShowNat(10);
    ScoreOfNegative(10);
  }

  /** An answer that starts with neither white space, a sign nor a digit
      scores 0, since `parseInt` reads no digit from it. */
  lemma ScoreOfNonNumber(text: string)
    requires |text| > 0 && !IsSpace(text[0]) && !IsDigit(text[0], 10)
    requires text[0] != '-' && text[0] != '+'
    ensures RelevanceScore(Answered(Some(text))) == 0
  {
    TrimStartOfVisible(text);
    var r := Trim(text);
    assert |r| > 0 && r[0] == text[0];
    TrimStartOfVisible(r);
    assert AfterSign(r) == r;
    assert !HasHexPrefix(r);
    assert DigitRun(r, 10) == 0;
  }

  /** "abc" scores 0. */
  lemma ScoreOfWord(text: string)
    requires text == "abc"
    ensures RelevanceScore(Answered(Some(text))) == 0
  {
    ScoreOfNonNumber(text);
  }

  /** Trailing text is ignored: "85%" scores 85. */
  lemma ScoreIgnoresTrailingText(text: string)
    requires text == "85%"
    ensures RelevanceScore(Answered(Some(text))) == 85
  {
    var n: nat := 10 * DigitValue(text[0]) + DigitValue(text[1]);
    assert ShowNat(n) == text[..2] by {
      assert ShowNat(n / 10) == [text[0]];
    }
    assert text == text[..2] + text[2..];
    ScoreOfLeadingNumber(n, text[2..]);
  }

  /** A two-digit answer scores its value: "80" scores 80. */
  lemma ScoreOfTwoDigits(text: string, n: nat)
    requires 10 <= n < 100 && text == [DigitChar(n / 10), DigitChar(n % 10)]
    ensures RelevanceScore(Answered(Some(text))) == n
  {
    assert ShowNat(n / 10) == [DigitChar(n / 10)];
    assert ShowNat(n) == text;
    ScoreOfNumber(n);
  }

  /** Without a radix, a `0x` prefix reads hexadecimal: "0x1F" scores 31. */
  lemma ScoreOfHexAnswer(text: string)
    requires text == "0x1F"
    ensures RelevanceScore(Answered(Some(text))) == 31
  {
    TrimStartOfVisible(text);
    DigitIsVisible('F', 16);
    TrimEndKeepsNonSpacePrefix(text, "");
    assert text + "" == text;
    assert Trim(text) == text;
    assert AfterSign(text) == text;
    assert HasHexPrefix(text);
    assert text[2..] == "1F";
    assert DigitRun("1F", 16) == 2;
    assert "1F"[..2] == "1F";
    assert DigitsValue("1F", 16) == 31 by {
      assert "1F"[..1] == "1";
      assert "1"[..0] == "";
    }
    assert ParseMagnitude(text) == Num(31);
  }

  /** The two prompts of `generateResponse`. */
  datatype PromptKind = DirectMessagePrompt | CommentPrompt

  /** The prompt a response type selects: the direct-message prompt only for
      exactly "dm"; anything else, including an unknown type, gets the
      comment prompt. */
  function PromptFor(responseType: string): (k: PromptKind)
    ensures k == DirectMessagePrompt <==> responseType == "dm"
  {
    if responseType == "dm" then DirectMessagePrompt else CommentPrompt
  }

  /** The fallback texts, written in pieces short enough for the verifier
      to see their characters. */
  const DmFallback: string := "Hi! I saw your post and thought " + "you might be interested in our solution."
  const CommentFallback: string := "Great question! You might want " + "to check out some of the tools " + "available for this."

  /** `generateResponse`: the model is asked with the prompt the type
      selects (`ask` answers each prompt); its trimmed answer is returned,
      and on any error the fixed fallback text for the type. */
  function GenerateResponse(responseType: string, ask: PromptKind -> LlmReply): (text: string)
    ensures (ask(PromptFor(responseType)).Answered? && ask(PromptFor(responseType)).content.Some?)
      ==> text == Trim(ask(PromptFor(responseType)).content.value)
    ensures !(ask(PromptFor(responseType)).Answered? && ask(PromptFor(responseType)).content.Some?)
      ==> text == (if responseType == "dm" then DmFallback else CommentFallback)
  {
    match ask(PromptFor(responseType))
    case Answered(Some(content)) => Trim(content)
    case _ => if responseType == "dm" then DmFallback else CommentFallback
  }

  /** Whichever branch answers, the text returned has no white space at
      either end: the model's answer is trimmed and both fallbacks start
      and end with a visible character. */
  lemma GeneratedTextIsTrimmed(responseType: string, ask: PromptKind -> LlmReply)
    ensures Trim(GenerateResponse(responseType, ask)) == GenerateResponse(responseType, ask)
  {
    var reply := ask(PromptFor(responseType));
    var text := GenerateResponse(responseType, ask);
    if reply.Answered? && reply.content.Some? {
      assert text == Trim(reply.content.value);
      TrimIdempotent(reply.content.value);
    } else {
      assert text == DmFallback || text == CommentFallback;
      FallbackIsTrimmed(text);
    }
  }

  /** Both fallback texts are their own trim. */
  lemma FallbackIsTrimmed(text: string)
    requires text == DmFallback || text == CommentFallback
    ensures Trim(text) == text
  {
    assert text[0] == 'H' || text[0] == 'G';
    assert text[|text| - 1] == '.';
    TrimOfVisibleEnds(text);
  }

  /** Every type other than "dm" is handled exactly like "comment". */
  lemma OtherTypesAreComments(responseType: string, ask: PromptKind -> LlmReply)
    requires responseType != "dm"
    ensures GenerateResponse(responseType, ask) == GenerateResponse("comment", ask)
  {
  }
}
