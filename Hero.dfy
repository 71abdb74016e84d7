/**
 * The hero banner (client/src/components/HeroSection.tsx): a typewriter
 * interval reveals the title one character per tick, and a second interval
 * blinks the caret.
 */
module Hero {

  /** The banner's title. */
  const FullText := ">_ KONSTANTIN KRESTNIKOV"

  /** The typewriter's state: the text shown, the interval's index, whether the interval is set. */
  datatype Typing = Typing(typed: string, index: nat, running: bool)

  const TypingStart := Typing("", 0, true)

  /** One call of the interval callback. */
  function TypingStep(text: string, t: Typing): Typing {
    if t.index <= |text| then Typing(text[..t.index], t.index + 1, t.running)
    else Typing(t.typed, t.index, false)
  }

  /** The state after `k` interval ticks. */
  function TypingAfter(text: string, k: nat): Typing {
    if k == 0 then TypingStart else TypingStep(text, TypingAfter(text, k - 1))
  }

  /**
   * Tick `k` (counting from 1) shows the first `k - 1` characters, until
   * tick `|text| + 1` has shown all of them; the tick after that clears the
   * interval and leaves the text alone.
   */
  lemma {:induction false} TypingClosedForm(text: string, k: nat)
    ensures TypingAfter(text, k) ==
      if k == 0 then TypingStart
      else if k <= |text| + 1 then Typing(text[..k - 1], k, true)
      else Typing(text, |text| + 1, false)
  {
    if k > 0 {
      TypingClosedForm(text, k - 1);
      if k - 1 == 0 {
        assert text[..0] == "";
      } else if k == |text| + 2 {
        assert text[..|text|] == text;
      }
    }
  }

  /** The banner's title is shown whole from tick 25 on, and only from then. */
  lemma TitleShownFrom(k: nat)
    ensures TypingAfter(FullText, k).typed == FullText <==> k >= |FullText| + 1
  {
    TypingClosedForm(FullText, k);
  }

  predicate IsPrefix(a: string, b: string) {
    |a| <= |b| && a == b[..|a|]
  }

  /** The shown text is always a prefix of the title, and it never shrinks. */
  lemma TypingPrefixGrows(text: string, k1: nat, k2: nat)
    requires k1 <= k2
    ensures IsPrefix(TypingAfter(text, k1).typed, TypingAfter(text, k2).typed)
    ensures IsPrefix(TypingAfter(text, k2).typed, text)
  {
    TypingClosedForm(text, k1);
    TypingClosedForm(text, k2);
  }

  /** The caret after `n` blinks from `start`. */
  function BlinkAfter(start: bool, n: nat): bool {
    if n == 0 then start else !BlinkAfter(start, n - 1)
  }

  /** The caret is back where it started after any even number of blinks. */
  lemma {:induction false} BlinkParity(start: bool, n: nat)
    ensures BlinkAfter(start, n) == if n % 2 == 0 then start else !start
  {
    if n > 0 {
      BlinkParity(start, n - 1);
    }
  }

  /** The banner component's state. */
  class HeroText {
    const fullText: string
    var typedText: string
    var currentIndex: nat
    /** The typing interval is set. */
    var typingActive: bool
    var showCursor: bool
    /** The blink interval is set. */
    var blinking: bool

    ghost function Typed(): Typing
      reads this
    {
      Typing(typedText, currentIndex, typingActive)
    }

    ghost predicate Valid()
      reads this
    {
      exists k: nat :: Typed() == TypingAfter(fullText, k)
    }

    /** Mounting: empty text, caret shown, both intervals set. */
    constructor (fullText: string)
      ensures Valid() && this.fullText == fullText
      ensures typedText == "" && currentIndex == 0 && typingActive
      ensures showCursor && blinking
    {
      this.fullText := fullText;
      typedText := "";
      currentIndex := 0;
      typingActive := true;
      showCursor := true;
      blinking := true;
      new;
      assert Typed() == TypingAfter(fullText, 0);
    }

    /** One tick of the typing interval. */
    method TypeTick()
      requires Valid() && typingActive
      modifies this
      ensures Valid()
      ensures Typed() == TypingStep(fullText, old(Typed()))
      ensures IsPrefix(old(typedText), typedText) && IsPrefix(typedText, fullText)
      ensures showCursor == old(showCursor) && blinking == old(blinking)
    {
      ghost var k: nat :| Typed() == TypingAfter(fullText, k);
      TypingPrefixGrows(fullText, k, k + 1);
      if currentIndex <= |fullText| {
        typedText := fullText[..currentIndex];
        currentIndex := currentIndex + 1;
      } else {
        typingActive := false;
      }
      assert Typed() == TypingAfter(fullText, k + 1);
    }

    /** One tick of the blink interval. */
    method BlinkTick()
      requires blinking
      modifies this
      ensures showCursor == !old(showCursor)
      ensures typedText == old(typedText) && currentIndex == old(currentIndex)
      ensures typingActive == old(typingActive) && blinking
    {
      showCursor := !showCursor;
    }

    /** Unmounting clears both intervals. */
    method Unmount()
      modifies this
      ensures !typingActive && !blinking
      ensures typedText == old(typedText) && showCursor == old(showCursor)
    {
      typingActive := false;
      blinking := false;
    }
  }

  /** Typing the whole title takes `|text| + 1` ticks; the next one stops the interval. */
  method TypeOut(text: string) returns (shown: string, stillRunning: bool)
    ensures shown == text && !stillRunning
  {
    var h := new HeroText(text);
    var k := 0;
    while k < |text| + 1
      invariant 0 <= k <= |text| + 1
      invariant h.fullText == text && h.Typed() == TypingAfter(text, k)
    {
      TypingClosedForm(text, k);
      h.TypeTick();
      k := k + 1;
    }
    TypingClosedForm(text, k);
    h.TypeTick();
    TypingClosedForm(text, k + 1);
    shown := h.typedText;
    stillRunning := h.typingActive;
  }
}
