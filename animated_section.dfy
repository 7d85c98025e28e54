/**
 * Reveal-on-scroll sections. Each section starts hidden; 100 ms after an
 * effect run it is marked initialised and either schedules its reveal (when
 * already within 300 px below the viewport) or waits for an intersection
 * observer. Timers and observer callbacks are explicit events here.
 */
module AnimatedSection {
  import Decimal

  /** The animation kinds the component names; any other value is also accepted. */
  const FadeUp: string := "fade-up"
  const FadeIn: string := "fade-in"
  const SlideLeft: string := "slide-left"
  const SlideRight: string := "slide-right"

  /** The classes a section of kind `animation` wears while hidden. */
  function AnimationClass(animation: string): string {
    if animation == FadeUp then "opacity-0 translate-y-10 transition-all duration-700 ease-out"
    else if animation == FadeIn then "opacity-0 transition-opacity duration-700 ease-out"
    else if animation == SlideLeft then "opacity-0 translate-x-10 transition-all duration-700 ease-out"
    else if animation == SlideRight then "opacity-0 -translate-x-10 transition-all duration-700 ease-out"
    else "opacity-0 transition-opacity duration-700 ease-out"
  }

  /** The classes added once a section of kind `animation` is revealed. */
  function VisibleClass(animation: string): string {
    if animation == FadeUp then "opacity-100 translate-y-0"
    else if animation == FadeIn then "opacity-100"
    else if animation == SlideLeft then "opacity-100 translate-x-0"
    else if animation == SlideRight then "opacity-100 translate-x-0"
    else "opacity-100"
  }

  /** An unknown kind animates exactly like "fade-in". */
  lemma UnknownKindFadesIn(animation: string)
    requires animation != FadeUp && animation != FadeIn && animation != SlideLeft && animation != SlideRight
    ensures AnimationClass(animation) == AnimationClass(FadeIn)
    ensures VisibleClass(animation) == VisibleClass(FadeIn)
  {
  }

  /** The characters that separate entries of an HTML class list. */
  predicate IsClassSeparator(c: char) {
    c == ' ' || c == '\t' || c == '\n' || c == '\U{000C}' || c == '\r'
  }

  /** The length of the class name at the start of `s`. */
  function WordLength(s: string): (n: nat)
    ensures n <= |s|
    ensures forall i :: 0 <= i < n ==> !IsClassSeparator(s[i])
    ensures n < |s| ==> IsClassSeparator(s[n])
  {
    if s == [] || IsClassSeparator(s[0]) then 0 else 1 + WordLength(s[1..])
  }

  /** The class list of a `class` attribute: the non-empty runs between separators, in order. */
  function ClassList(s: string): seq<string>
    decreases |s|
  {
    if s == [] then []
    else if IsClassSeparator(s[0]) then ClassList(s[1..])
    else
      var n := WordLength(s);
      [s[..n]] + ClassList(s[n..])
  }

  /** Every entry of a class list is a non-empty name free of separators. */
  lemma {:induction false} ClassListNames(s: string)
    ensures forall k :: 0 <= k < |ClassList(s)| ==> ClassList(s)[k] != []
    ensures forall k, i :: 0 <= k < |ClassList(s)| && 0 <= i < |ClassList(s)[k]| ==> !IsClassSeparator(ClassList(s)[k][i])
    decreases |s|
  {
    if s != [] {
      if IsClassSeparator(s[0]) {
        ClassListNames(s[1..]);
      } else {
        ClassListNames(s[WordLength(s)..]);
      }
    }
  }

  /** A separator ends the first class name, whatever follows it. */
  lemma {:induction false} WordLengthBeforeSeparator(a: string, c: char, b: string)
    requires IsClassSeparator(c)
    ensures WordLength(a + [c] + b) == WordLength(a)
  {
    if a != [] && !IsClassSeparator(a[0]) {
      WordLengthBeforeSeparator(a[1..], c, b);
      assert (a + [c] + b)[1..] == a[1..] + [c] + b;
    }
  }

  /** Joining two strings with a separator joins their class lists. */
  lemma {:induction false} ClassListJoin(a: string, c: char, b: string)
    requires IsClassSeparator(c)
    ensures ClassList(a + [c] + b) == ClassList(a) + ClassList(b)
    decreases |a|
  {
    var s := a + [c] + b;
    if a == [] {
      assert s[1..] == b;
    } else if IsClassSeparator(a[0]) {
      ClassListJoin(a[1..], c, b);
      assert s[1..] == a[1..] + [c] + b;
    } else {
      ClassListJoin(a[WordLength(a)..], c, b);
      JoinAfterWord(a, c, b);
    }
  }

  /** The step of `ClassListJoin` when `a` starts with a class name. */
  lemma JoinAfterWord(a: string, c: char, b: string)
    requires IsClassSeparator(c) && a != [] && !IsClassSeparator(a[0])
    requires ClassList(a[WordLength(a)..] + [c] + b) == ClassList(a[WordLength(a)..]) + ClassList(b)
    ensures ClassList(a + [c] + b) == ClassList(a) + ClassList(b)
  {
    var s := a + [c] + b;
    var n := WordLength(a);
    WordLengthBeforeSeparator(a, c, b);
    assert s[0] == a[0];
    assert ClassList(s) == [s[..n]] + ClassList(s[n..]);
    assert ClassList(a) == [a[..n]] + ClassList(a[n..]);
    assert s[..n] == a[..n];
    assert s[n..] == a[n..] + [c] + b;
  }

  /** The class every section wears last, and the one that hides it until initialised. */
  const FullWidth: string := "w-full"
  const Uninitialised: string := "opacity-0"

  /** The `className` template: the caller's classes, the hidden classes, the visible ones, `opacity-0`, `w-full`. */
  function ClassName(className: string, animation: string, isVisible: bool, isInitialized: bool): string {
    var visiblePart := if isVisible then VisibleClass(animation) else "";
    var initPart := if isInitialized then "" else Uninitialised;
    className + " " + AnimationClass(animation) + " " + visiblePart + " " + initPart + " " + FullWidth
  }

  /** A string with no separator is one class name, or none when empty. */
  lemma {:induction false} SingleClass(w: string)
    requires forall i :: 0 <= i < |w| ==> !IsClassSeparator(w[i])
    ensures ClassList(w) == if w == [] then [] else [w]
  {
    if w != [] {
      WholeWord(w);
      assert !IsClassSeparator(w[0]);
      assert w[..|w|] == w;
      assert w[|w|..] == [];
    }
  }

  lemma {:induction false} WholeWord(w: string)
    requires forall i :: 0 <= i < |w| ==> !IsClassSeparator(w[i])
    ensures WordLength(w) == |w|
  {
    if w != [] {
      WholeWord(w[1..]);
    }
  }

  /** The class list of five slots joined by single spaces. */
  lemma FiveSlots(u: string, a: string, v: string, i: string, w: string)
    ensures ClassList(u + " " + a + " " + v + " " + i + " " + w)
         == ClassList(u) + ClassList(a) + ClassList(v) + ClassList(i) + ClassList(w)
  {
    ClassListJoin(u, ' ', a);
    ClassListJoin(u + " " + a, ' ', v);
    ClassListJoin(u + " " + a + " " + v, ' ', i);
    ClassListJoin(u + " " + a + " " + v + " " + i, ' ', w);
  }

  /** `FiveSlots` for a string already known to be the join. */
  lemma JoinedSlots(u: string, a: string, v: string, i: string, w: string, full: string)
    requires full == u + " " + a + " " + v + " " + i + " " + w
    ensures ClassList(full) == ClassList(u) + ClassList(a) + ClassList(v) + ClassList(i) + ClassList(w)
  {
    FiveSlots(u, a, v, i, w);
  }

  /**
   * As the browser reads it, the class list is the caller's classes, then the
   * kind's hidden classes, then its visible classes exactly when revealed,
   * then `opacity-0` exactly when not yet initialised, then `w-full`.
   */
  lemma ClassNameLists(className: string, animation: string, isVisible: bool, isInitialized: bool)
    ensures ClassList(ClassName(className, animation, isVisible, isInitialized))
         == ClassList(className) + ClassList(AnimationClass(animation))
            + (if isVisible then ClassList(VisibleClass(animation)) else [])
            + (if isInitialized then [] else [Uninitialised]) + [FullWidth]
  {
    var a := AnimationClass(animation);
    var v := if isVisible then VisibleClass(animation) else "";
    var i := if isInitialized then "" else Uninitialised;
    SingleClass(i);
    SingleClass(FullWidth);
    JoinedSlots(className, a, v, i, FullWidth, ClassName(className, animation, isVisible, isInitialized));
  }

  /** The `transitionDelay` style: the delay in milliseconds, written as `String(delay) + "ms"`. */
  function TransitionDelay(delay: int): (r: string)
    ensures |r| >= 3 && r[|r| - 2..] == "ms"
    ensures delay >= 0 ==> Decimal.ReadsAs(r[..|r| - 2], delay)
  {
    var d := Decimal.IntToString(delay);
    assert (d + "ms")[..|d|] == d;
    d + "ms"
  }

  /** How far below the viewport a section may start and still be revealed without an observer, in pixels. */
  const RevealMargin: int := 300

  /**
   * One mounted section. `hasElement` is whether the element's ref is set when
   * the init timer fires. `revealTimers` counts scheduled reveals and
   * `observers` the observers still watching the element; the source cancels
   * neither, so neither ever goes down except by firing.
   */
  class Reveal {
    const hasElement: bool
    var delay: int
    var isVisible: bool
    var isInitialized: bool
    var initTimerPending: bool
    var revealTimers: nat
    var observers: nat

    /** Nothing is scheduled or revealed without an element, and nothing before initialisation. */
    ghost predicate Valid()
      reads this
    {
      && (!hasElement ==> revealTimers == 0 && observers == 0 && !isVisible)
      && (revealTimers > 0 || observers > 0 || isVisible ==> isInitialized)
    }

    /** Once revealed a section stays revealed, and initialisation is never undone. */
    twostate predicate Latched()
      reads this
    {
      (old(isVisible) ==> isVisible) && (old(isInitialized) ==> isInitialized)
    }

    /** Mount: hidden and uninitialised, and the effect arms the 100 ms init timer. */
    constructor (hasElement: bool, delay: int)
      ensures Valid() && this.hasElement == hasElement && this.delay == delay
      ensures !isVisible && !isInitialized && initTimerPending
      ensures revealTimers == 0 && observers == 0
    {
      this.hasElement := hasElement;
      this.delay := delay;
      isVisible := false;
      isInitialized := false;
      initTimerPending := true;
      revealTimers := 0;
      observers := 0;
    }

    /**
     * The init timer: the section becomes initialised in every case; without
     * an element nothing else happens; a section whose top is less than
     * `innerHeight + 300` (at most 300 px below the viewport) gets a reveal
     * timer, any other an observer.
     */
    method InitTimerFired(rectTop: int, innerHeight: int)
      requires Valid() && initTimerPending
      modifies this
      ensures Valid() && Latched() && isInitialized && !initTimerPending
      ensures isVisible == old(isVisible) && delay == old(delay)
      ensures !hasElement ==> revealTimers == old(revealTimers) && observers == old(observers)
      ensures hasElement && rectTop < innerHeight + RevealMargin ==>
                revealTimers == old(revealTimers) + 1 && observers == old(observers)
      ensures hasElement && rectTop >= innerHeight + RevealMargin ==>
                revealTimers == old(revealTimers) && observers == old(observers) + 1
    {
      initTimerPending := false;
      isInitialized := true;
      if !hasElement {
        return;
      }
      if rectTop < innerHeight + RevealMargin {
        revealTimers := revealTimers + 1;
        return;
      }
      observers := observers + 1;
    }

    /** A scheduled reveal fires: the section becomes visible. */
    method RevealTimerFired()
      requires Valid() && revealTimers > 0
      modifies this
      ensures Valid() && Latched() && isVisible && revealTimers == old(revealTimers) - 1
      ensures isInitialized == old(isInitialized) && initTimerPending == old(initTimerPending)
      ensures observers == old(observers) && delay == old(delay)
    {
      revealTimers := revealTimers - 1;
      isVisible := true;
    }

    /** An observer reports an entry: an intersecting one reveals the section and that observer stops; any other changes nothing. */
    method ObserverReports(isIntersecting: bool)
      requires Valid() && observers > 0
      modifies this
      ensures Valid() && Latched()
      ensures isIntersecting ==> isVisible && observers == old(observers) - 1
      ensures !isIntersecting ==> isVisible == old(isVisible) && observers == old(observers)
      ensures isInitialized == old(isInitialized) && initTimerPending == old(initTimerPending)
      ensures revealTimers == old(revealTimers) && delay == old(delay)
    {
      if isIntersecting {
        isVisible := true;
        observers := observers - 1;
      }
    }

    /** Unmount: the effect's cleanup clears only the init timer; scheduled reveals and observers remain. */
    method Unmount()
      requires Valid()
      modifies this
      ensures Valid() && Latched() && !initTimerPending
      ensures isVisible == old(isVisible) && isInitialized == old(isInitialized)
      ensures revealTimers == old(revealTimers) && observers == old(observers) && delay == old(delay)
    {
      initTimerPending := false;
    }

    /** A new `delay`: cleanup clears the pending init timer, then the effect hides the section and arms a new one. */
    method DelayChanged(newDelay: int)
      requires Valid()
      modifies this
      ensures Valid() && delay == newDelay && !isVisible && initTimerPending
      ensures isInitialized == old(isInitialized)
      ensures revealTimers == old(revealTimers) && observers == old(observers)
    {
      initTimerPending := false;
      delay := newDelay;
      isVisible := false;
      initTimerPending := true;
    }

    /** The `className` rendered for this state. */
    function Rendered(className: string, animation: string): (r: string)
      reads this
      ensures ClassList(r) == ClassList(className) + ClassList(AnimationClass(animation))
                + (if isVisible then ClassList(VisibleClass(animation)) else [])
                + (if isInitialized then [] else [Uninitialised]) + [FullWidth]
    {
      ClassNameLists(className, animation, isVisible, isInitialized);
      ClassName(className, animation, isVisible, isInitialized)
    }
  }
}
