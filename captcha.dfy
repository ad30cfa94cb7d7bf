/** The CAPTCHA bypass of `tvpl_crawler/links_playwright.py`: up to three
    attempts, each reading the image with several OCR settings.  Image
    processing is not modelled: an attempt is given by its OCR readings
    (already stripped, without spaces, upper-cased) and by whether the site
    accepted the submitted code.  A failed bypass stops the crawl. */
module Captcha {
  import opened Common
  import opened SearchParser
  import opened Harvest

  const CodeLength := 6
  const MaxAttempts := 3

  /** The OCR loops: the first reading of at least six characters, else "". */
  function OcrCode(readings: seq<string>): (code: string)
    ensures code == "" || (|code| >= CodeLength && code in readings)
    ensures code == "" <==> forall r :: r in readings ==> |r| < CodeLength
    ensures code != "" ==> exists i :: 0 <= i < |readings| && readings[i] == code &&
                                       forall j :: 0 <= j < i ==> |readings[j]| < CodeLength
  {
    if readings == [] then ""
    else if |readings[0]| >= CodeLength then readings[0]
    else OcrCode(readings[1..])
  }

  /** The code typed into the form: the first six characters of the OCR
      code, when it has at least six. */
  function SubmittedCode(readings: seq<string>): (c: string)
    ensures c == "" <==> |OcrCode(readings)| < CodeLength
    ensures c != "" ==> |c| == CodeLength && |OcrCode(readings)| >= CodeLength && c == OcrCode(readings)[..CodeLength]
  {
    var code := OcrCode(readings);
    if |code| >= CodeLength then code[..CodeLength] else ""
  }

  /** One attempt: the image was not found (the attempts stop), an error
      was raised (the next attempt follows), or the image was read. */
  datatype Attempt = NoImage | AttemptError | Read(readings: seq<string>, accepted: bool)

  /** Whether the bypass succeeds from attempt `i` on, and the codes it
      submits. */
  function BypassFrom(attempts: seq<Attempt>, i: nat): (r: (bool, seq<string>))
    decreases MaxAttempts - i
  {
    if i >= MaxAttempts || i >= |attempts| then (false, [])
    else match attempts[i]
      case NoImage => (false, [])
      case AttemptError => BypassFrom(attempts, i + 1)
      case Read(readings, accepted) =>
        var code := SubmittedCode(readings);
        if code == "" then BypassFrom(attempts, i + 1)
        else if accepted then (true, [code])
        else
          var rest := BypassFrom(attempts, i + 1);
          (rest.0, [code] + rest.1)
  }

  /** Lines 86-210: the attempt loop. */
  method Bypass(attempts: seq<Attempt>) returns (bypassed: bool, submitted: seq<string>)
    ensures bypassed == BypassFrom(attempts, 0).0
    ensures submitted == BypassFrom(attempts, 0).1
  {
    bypassed, submitted := false, [];
    var attempt := 0;
    while attempt < MaxAttempts && attempt < |attempts|
      invariant 0 <= attempt <= MaxAttempts
      invariant !bypassed
      invariant BypassFrom(attempts, 0).0 == BypassFrom(attempts, attempt).0
      invariant BypassFrom(attempts, 0).1 == submitted + BypassFrom(attempts, attempt).1
    {
      BypassUnfold(attempts, attempt);
      match attempts[attempt] {
        case NoImage =>
          break;
        case AttemptError =>
        case Read(readings, accepted) =>
          var code := OcrCode(readings);
          if |code| >= CodeLength {
            code := code[..CodeLength];
            assert code == SubmittedCode(readings);
            CodesAssoc(submitted, [code], BypassFrom(attempts, attempt + 1).1);
            submitted := submitted + [code];
            if accepted {
              bypassed := true;
              break;
            }
          }
      }
      attempt := attempt + 1;
    }
  }

  /** One attempt of the bypass, case by case. */
  lemma BypassUnfold(attempts: seq<Attempt>, i: nat)
    requires i < MaxAttempts && i < |attempts|
    ensures attempts[i].NoImage? ==> BypassFrom(attempts, i) == (false, [])
    ensures attempts[i].AttemptError? ==> BypassFrom(attempts, i) == BypassFrom(attempts, i + 1)
    ensures attempts[i].Read? ==>
              var code := SubmittedCode(attempts[i].readings);
              var rest := BypassFrom(attempts, i + 1);
              BypassFrom(attempts, i) ==
                if code == "" then rest
                else if attempts[i].accepted then (true, [code])
                else (rest.0, [code] + rest.1)
  {
  }

  lemma CodesAssoc(a: seq<string>, b: seq<string>, c: seq<string>)
    ensures a + (b + c) == (a + b) + c
  {
  }

  /** At most one code per attempt, so at most three. */
  lemma {:induction false} AtMostThreeCodes(attempts: seq<Attempt>, i: nat)
    requires i <= MaxAttempts
    ensures |BypassFrom(attempts, i).1| <= MaxAttempts - i
    decreases MaxAttempts - i
  {
    if i < MaxAttempts && i < |attempts| {
      AtMostThreeCodes(attempts, i + 1);
    }
  }

  /** Every submitted code has exactly six characters and is the start of
      the OCR code of some attempt. */
  lemma {:induction false} CodesAreSixCharacters(attempts: seq<Attempt>, i: nat)
    ensures forall c :: c in BypassFrom(attempts, i).1 ==>
              (|c| == CodeLength && exists j :: i <= j < |attempts| && attempts[j].Read? && c == SubmittedCode(attempts[j].readings))
    decreases MaxAttempts - i
  {
    if i < MaxAttempts && i < |attempts| {
      CodesAreSixCharacters(attempts, i + 1);
    }
  }

  /** Success means the last submitted code was accepted. */
  lemma {:induction false} SuccessIsAccepted(attempts: seq<Attempt>, i: nat)
    ensures var r := BypassFrom(attempts, i);
            r.0 ==>
              (r.1 != [] && exists j :: (i <= j < |attempts| && attempts[j].Read? && attempts[j].accepted
                                         && r.1[|r.1| - 1] == SubmittedCode(attempts[j].readings)))
    decreases MaxAttempts - i
  {
    if i < MaxAttempts && i < |attempts| {
      SuccessIsAccepted(attempts, i + 1);
    }
  }

  /** What a browser page gives the harvest: its items, unless a CAPTCHA
      was shown and the bypass failed, which stops the crawl. */
  function BrowserPage(captchaShown: bool, attempts: seq<Attempt>, items: seq<SearchItem>): (p: PageFetch)
    ensures p.Stopped? <==> captchaShown && !BypassFrom(attempts, 0).0
  {
    if captchaShown && !BypassFrom(attempts, 0).0 then Stopped else Fetched(items)
  }

  /** A failed bypass on page `k` means no later page adds anything. */
  lemma FailedBypassStops(pages: seq<PageFetch>, canonical: string -> string, k: nat, attempts: seq<Attempt>, items: seq<SearchItem>)
    requires k < |pages| && pages[k] == BrowserPage(true, attempts, items)
    requires !BypassFrom(attempts, 0).0
    requires !Crawl(pages[..k], canonical).stopped
    ensures Crawl(pages, canonical).allItems == Crawl(pages[..k], canonical).allItems
  {
    assert pages[..k + 1][..k] == pages[..k];
    StoppedStays(pages, canonical, k + 1);
  }
}
