/** The gallery page (client/src/pages/Gallery.tsx): which pictures it
    shows, and the lightbox whose open index the arrows move around the
    list. */
module GalleryPage {
  import opened Common

  datatype Picture = Picture(id: int, url: string, alt: string)

  /** The nine pictures shown while the gallery has none of its own. */
  const DefaultPictures: seq<Picture> := [
    Picture(1, "https://images.unsplash.com/photo-1534567153574-2b12153a87f0?w=600&q=80", "Lion"),
    Picture(2, "https://images.unsplash.com/photo-1547721064-da6cfb341d50?w=600&q=80", "Giraffe"),
    Picture(3, "https://images.unsplash.com/photo-1564349683136-77e08dba1ef7?w=600&q=80", "Elephant"),
    Picture(4, "https://images.unsplash.com/photo-1530595467537-0b5996c41f2d?w=600&q=80", "Bears"),
    Picture(5, "https://images.unsplash.com/photo-1557050543-4d5f4e07ef46?w=600&q=80", "Zebra"),
    Picture(6, "https://images.unsplash.com/photo-1463501810073-6e31c827a9bc?w=600&q=80", "Penguin"),
    Picture(7, "https://images.unsplash.com/photo-1535338454770-8be927b5a00b?w=600&q=80", "Tiger"),
    Picture(8, "https://images.unsplash.com/photo-1544551763-46a013bb70d5?w=600&q=80", "Panda"),
    Picture(9, "https://images.unsplash.com/photo-1507003211169-0a1dd7228f2d?w=600&q=80", "Flamingo")
  ]

  /** `displayImages`: the pictures the server sent when there are any
      (`None` while they load or after an error), else the defaults. */
  function DisplayPictures(fetched: Option<seq<Picture>>): (r: seq<Picture>)
    ensures fetched.Some? && fetched.value != [] ==> r == fetched.value
    ensures fetched.None? || fetched.value == [] ==> r == DefaultPictures
    ensures |r| >= 1
  {
    if fetched.Some? && |fetched.value| > 0 then fetched.value else DefaultPictures
  }

  /** The index `goToNext` moves to among `n` pictures. */
  function NextIndex(current: int, n: int): int
  {
    if current == n - 1 then 0 else current + 1
  }

  /** The index `goToPrev` moves to among `n` pictures. */
  function PrevIndex(current: int, n: int): int
  {
    if current == 0 then n - 1 else current - 1
  }

  /** Within the list, the arrows step one place around a cycle: `next` is
      one on modulo `n`, `prev` one back, each stays in range and each
      undoes the other. */
  lemma ArrowsCycle(current: int, n: int)
    requires 0 <= current < n
    ensures 0 <= NextIndex(current, n) < n && 0 <= PrevIndex(current, n) < n
    ensures NextIndex(current, n) == (current + 1) % n
    ensures PrevIndex(current, n) == (current - 1) % n
    ensures PrevIndex(NextIndex(current, n), n) == current
    ensures NextIndex(PrevIndex(current, n), n) == current
  {
    if current == n - 1 {
      assert (current + 1) % n == n % n == 0;
    } else {
      assert (current + 1) % n == current + 1;
    }
    if current == 0 {
      assert (current - 1) % n == n - 1;
    } else {
      assert (current - 1) % n == current - 1;
    }
  }

  /** Up to `n` presses of `next` move `presses` places on, wrapping once
      past the end; `n` presses come back to the starting picture. */
  lemma {:induction false} FullTurnReturns(current: int, n: int, presses: nat)
    requires 0 <= current < n && presses <= n
    ensures NextTimes(current, n, presses) == if current + presses < n then current + presses else current + presses - n
    ensures presses == n ==> NextTimes(current, n, presses) == current
    decreases presses
  {
    if presses > 0 {
      FullTurnReturns(current, n, presses - 1);
    }
  }

  /** Where `presses` presses of `next` lead. */
  function NextTimes(current: int, n: int, presses: nat): int
  {
    if presses == 0 then current else NextIndex(NextTimes(current, n, presses - 1), n)
  }

  /** The lightbox: `index` is the picture it shows, `None` while closed;
      `scrollLocked` is the page's `overflow: hidden`. */
  class Lightbox {
    var index: Option<int>
    var scrollLocked: bool

    constructor ()
      ensures index == None && !scrollLocked
    {
      index := None;
      scrollLocked := false;
    }

    /** `openLightbox`. */
    method Open(i: int)
      modifies this
      ensures index == Some(i) && scrollLocked
    {
      index := Some(i);
      scrollLocked := true;
    }

    /** `closeLightbox`. */
    method Close()
      modifies this
      ensures index == None && !scrollLocked
    {
      index := None;
      scrollLocked := false;
    }

    /** `goToPrev` over the pictures on show; closed, it does nothing. */
    method GoToPrev(shown: seq<Picture>)
      modifies this
      ensures old(index).None? ==> index == None
      ensures old(index).Some? ==> index == Some(PrevIndex(old(index).value, |shown|))
      ensures scrollLocked == old(scrollLocked)
    {
      var current := index;
      if current.Some? {
        var newIndex := if current.value == 0 then |shown| - 1 else current.value - 1;
        index := Some(newIndex);
      }
    }

    /** `goToNext` over the pictures on show; closed, it does nothing. */
    method GoToNext(shown: seq<Picture>)
      modifies this
      ensures old(index).None? ==> index == None
      ensures old(index).Some? ==> index == Some(NextIndex(old(index).value, |shown|))
      ensures scrollLocked == old(scrollLocked)
    {
      var current := index;
      if current.Some? {
        var newIndex := if current.value == |shown| - 1 then 0 else current.value + 1;
        index := Some(newIndex);
      }
    }
  }

  /** An open lightbox over the pictures on show stays on a picture that
      exists, and `prev` after `next` brings it back. */
  method ArrowsKeepPicture(box: Lightbox, fetched: Option<seq<Picture>>, i: int)
    requires 0 <= i < |DisplayPictures(fetched)|
    modifies box
    ensures box.index.Some? && box.index.value == i
  {
    var shown := DisplayPictures(fetched);
    box.Open(i);
    box.GoToNext(shown);
    ArrowsCycle(i, |shown|);
    assert 0 <= box.index.value < |shown|;
    box.GoToPrev(shown);
  }
}
