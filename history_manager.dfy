/**
 * ImageHistoryManager: a last-in-first-out stack of images that ignores null.
 * The stack is a sequence whose last element is the top, as `java.util.Stack`
 * keeps it; `Option` stands for an image reference that may be null.
 */
module HistoryManagement {
  import opened Wrappers

  /** The history after `saveState(image)`: a null image is not recorded. */
  function Pushed<T>(history: seq<T>, image: Option<T>): (h: seq<T>)
    ensures image.None? ==> h == history
    ensures image.Some? ==> |h| == |history| + 1 && h[..|history|] == history && h[|history|] == image.value
  {
    match image
    case None => history
    case Some(img) => history + [img]
  }

  /** What `undo()` returns and the history it leaves: the top and the rest, or null on an empty stack. */
  function Popped<T>(history: seq<T>): (r: (Option<T>, seq<T>))
    ensures history == [] ==> r == (None, [])
    ensures history != [] ==> r.0 == Some(history[|history| - 1]) && r.1 + [history[|history| - 1]] == history
  {
    if history == [] then (None, [])
    else (Some(history[|history| - 1]), history[..|history| - 1])
  }

  /** The history after saving each image of `images` in turn. */
  function SaveAll<T>(history: seq<T>, images: seq<T>): (h: seq<T>)
    decreases |images|
  {
    if images == [] then history
    else SaveAll(Pushed(history, Some(images[0])), images[1..])
  }

  /** The results of `n` successive undos, in call order, and the history they leave. */
  function UndoTimes<T>(history: seq<T>, n: nat): (r: (seq<Option<T>>, seq<T>))
    ensures |r.0| == n
  {
    if n == 0 then ([], history)
    else
      var (top, rest) := Popped(history);
      var (later, final) := UndoTimes(rest, n - 1);
      ([top] + later, final)
  }

  function Reverse<T>(s: seq<T>): (r: seq<T>)
    ensures |r| == |s|
  {
    if s == [] then [] else Reverse(s[1..]) + [s[0]]
  }

  function Somes<T>(s: seq<T>): (r: seq<Option<T>>)
    ensures |r| == |s|
    ensures forall i :: 0 <= i < |s| ==> r[i] == Some(s[i])
  {
    if s == [] then [] else [Some(s[0])] + Somes(s[1..])
  }

  /** Saving a non-null image and undoing at once gives the image back and the history as it was. */
  lemma SaveThenUndo<T>(history: seq<T>, image: T)
    ensures Popped(Pushed(history, Some(image))) == (Some(image), history)
  {
    assert (history + [image])[..|history|] == history;
  }

  /** Saving n images appends them in order. */
  lemma {:induction false} SaveAllAppends<T>(history: seq<T>, images: seq<T>)
    ensures SaveAll(history, images) == history + images
    decreases |images|
  {
    if images != [] {
      SaveAllAppends(history + [images[0]], images[1..]);
      assert history + [images[0]] + images[1..] == history + images;
    }
  }

  /** n undos after n saves of `images` return them last first and leave `history` again. */
  lemma {:induction false} UndoAfterAppend<T>(history: seq<T>, images: seq<T>)
    ensures UndoTimes(history + images, |images|) == (Somes(Reverse(images)), history)
    decreases |images|
  {
    if images != [] {
      var n := |images|;
      var last := images[n - 1];
      var front := images[..n - 1];
      assert history + images == (history + front) + [last];
      assert Popped(history + images) == (Some(last), history + front);
      UndoAfterAppend(history, front);
      ReverseOfSnoc(front, last);
      assert images == front + [last];
      SomesOfCons(last, Reverse(front));
      assert Reverse(images) == [last] + Reverse(front);
      assert Somes(Reverse(images)) == [Some(last)] + Somes(Reverse(front));
      assert UndoTimes(history + images, n) ==
        ([Some(last)] + UndoTimes(history + front, n - 1).0, UndoTimes(history + front, n - 1).1);
    } else {
      assert history + images == history;
    }
  }

  lemma {:induction false} ReverseOfSnoc<T>(s: seq<T>, x: T)
    ensures Reverse(s + [x]) == [x] + Reverse(s)
    decreases |s|
  {
    if s != [] {
      assert (s + [x])[1..] == s[1..] + [x];
      ReverseOfSnoc(s[1..], x);
    } else {
      assert [x][1..] == [];
    }
  }

  lemma {:induction false} SomesOfCons<T>(x: T, s: seq<T>)
    ensures Somes([x] + s) == [Some(x)] + Somes(s)
  {
    assert ([x] + s)[1..] == s;
  }

  /** N non-null saves followed by N undos return the images in reverse order and restore the history. */
  lemma SavesThenUndosReverse<T>(history: seq<T>, images: seq<T>)
    ensures UndoTimes(SaveAll(history, images), |images|) == (Somes(Reverse(images)), history)
  {
    SaveAllAppends(history, images);
    UndoAfterAppend(history, images);
  }

  class ImageHistoryManager<T> {
    var history: seq<T>

    constructor ()
      ensures history == []
    {
      history := [];
    }

    /** Pushes a non-null image; a null image leaves the history as it is. */
    method SaveState(image: Option<T>)
      modifies this
      ensures history == Pushed(old(history), image)
    {
      if image.Some? {
        history := history + [image.value];
      }
    }

    /** Pops and returns the most recent image, or returns null when there is none. */
    method Undo() returns (previous: Option<T>)
      modifies this
      ensures (previous, history) == Popped(old(history))
    {
      if history != [] {
        previous := Some(history[|history| - 1]);
        history := history[..|history| - 1];
      } else {
        previous := None;
      }
    }

    /** Whether an undo would return an image. */
    method CanUndo() returns (possible: bool)
      ensures possible <==> |history| > 0
    {
      possible := history != [];
    }
  }
}
