/**
 * The home page carousel: three fixed slides and the index of the one on show,
 * which a timer tick advances with wrap-around and an indicator button sets
 * directly.
 */
module HeroSlider {

  /** A slide; `image` is the bundled asset the slide shows. */
  datatype Slide = Slide(id: nat, image: string, title: string, subtitle: string)

  const Slides: seq<Slide> := [
    Slide(1, "hero-1.jpg", "Capturing Light", "Fine Art Photography"),
    Slide(2, "hero-2.jpg", "Human Form", "Portrait Series"),
    Slide(3, "hero-3.jpg", "Urban Geometry", "Architecture Collection")
  ]

  /** `nextSlide`: `(prev + 1) % slides.length`. */
  function Advance(i: nat): (j: nat)
    ensures j < |Slides|
  {
    (i + 1) % |Slides|
  }

  /** From a slide on show the next one follows, and the last wraps to the first. */
  lemma AdvanceWraps(i: nat)
    requires i < |Slides|
    ensures Advance(i) == if i + 1 < |Slides| then i + 1 else 0
  {
  }

  /** The slide on show after `k` ticks from slide `i`. */
  function Ticks(i: nat, k: nat): nat {
    if k == 0 then i else Advance(Ticks(i, k - 1))
  }

  lemma ModStep(x: nat)
    ensures (x % 3 + 1) % 3 == (x + 1) % 3
  {
  }

  /** After `k` ticks the carousel has moved `k` slides on, modulo three. */
  lemma {:induction false} TicksModulo(i: nat, k: nat)
    requires i < |Slides|
    ensures Ticks(i, k) == (i + k) % |Slides|
  {
    if k > 0 {
      TicksModulo(i, k - 1);
      ModStep(i + k - 1);
    }
  }

  /** Three ticks bring back the starting slide. */
  lemma ThreeTicksReturn(i: nat)
    requires i < |Slides|
    ensures Ticks(i, 3) == i
  {
    TicksModulo(i, 3);
  }

  /** Every slide is on show within three ticks, whichever slide the carousel starts on. */
  lemma TicksShowEverySlide(i: nat)
    requires i < |Slides|
    ensures {Ticks(i, 0), Ticks(i, 1), Ticks(i, 2)} == {0, 1, 2}
  {
    AdvanceWraps(i);
    AdvanceWraps(Advance(i));
  }

  /** The carousel's state: `currentSlide`. */
  class Carousel {
    var currentSlide: nat

    /** The index selects a slide, so `slides[currentSlide]` is defined. */
    predicate Valid()
      reads this
    {
      currentSlide < |Slides|
    }

    constructor()
      ensures Valid() && currentSlide == 0
    {
      currentSlide := 0;
    }

    /** One timer tick. */
    method NextSlide()
      modifies this
      ensures Valid() && currentSlide == Advance(old(currentSlide))
    {
      currentSlide := (currentSlide + 1) % |Slides|;
    }

    /** A click on indicator `index`; there is one indicator per slide. */
    method GoTo(index: nat)
      requires index < |Slides|
      modifies this
      ensures Valid() && currentSlide == index
    {
      currentSlide := index;
    }

    /** The slide whose image, title and subtitle are on show. */
    function Current(): (s: Slide)
      requires Valid()
      reads this
      ensures s in Slides
    {
      Slides[currentSlide]
    }

    /** Which indicators are drawn highlighted: exactly the one of the slide on show. */
    function Indicators(): (r: seq<bool>)
      requires Valid()
      reads this
      ensures |r| == |Slides|
      ensures forall k :: 0 <= k < |r| ==> (r[k] <==> k == currentSlide)
      ensures exists k :: 0 <= k < |r| && r[k]
    {
      var c := currentSlide;
      var r := seq(|Slides|, k => k == c);
      assert r[c];
      r
    }
  }
}
