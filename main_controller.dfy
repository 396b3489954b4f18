/**
 * MainController's own undo history and current image. The controller keeps
 * a `Stack<Image>` of its own (it does not use ImageHistoryManager) and the
 * image shown in `imageView`. Images are a type parameter: what the
 * controller does with them does not depend on their pixels. `Option` stands
 * for a reference that may be null; the last element of `history` is the top.
 */
module MainControl {
  import opened Wrappers
  import ExportUtils

  /** `s.lastIndexOf(c)`: the last index holding `c`, or -1 when there is none. */
  function LastIndexOf(s: string, c: char): (k: int)
    ensures -1 <= k < |s|
    ensures k >= 0 ==> s[k] == c
    ensures forall i :: k < i < |s| ==> s[i] != c
  {
    if |s| == 0 then -1
    else if s[|s| - 1] == c then |s| - 1
    else LastIndexOf(s[..|s| - 1], c)
  }

  /**
   * `getFileSuffix`: `name.substring(name.lastIndexOf(".") + 1)`. The result
   * is the longest tail of the name without a dot: all of it when the name has
   * no dot, otherwise what follows the last dot.
   */
  function FileSuffix(name: string): (suffix: string)
    ensures '.' !in suffix
    ensures |suffix| <= |name| && name[|name| - |suffix|..] == suffix
    ensures |suffix| < |name| ==> name[|name| - |suffix| - 1] == '.'
    ensures '.' !in name ==> suffix == name
  {
    name[LastIndexOf(name, '.') + 1..]
  }

  /** Two dot-free tails of a name, each either all of it or preceded by a dot, are the same. */
  lemma DotFreeTailUnique(name: string, a: string, b: string)
    requires '.' !in a && |a| <= |name| && name[|name| - |a|..] == a
    requires |a| < |name| ==> name[|name| - |a| - 1] == '.'
    requires '.' !in b && |b| <= |name| && name[|name| - |b|..] == b
    requires |b| < |name| ==> name[|name| - |b| - 1] == '.'
    ensures a == b
  {
  }

  /** The file `exportImage` writes has, read back by `getFileSuffix`, the suffix it was given. */
  lemma ExportedFileSuffix(suffix: Option<string>, directory: Option<string>)
    requires ExportUtils.ExportPath(suffix, directory).Success?
    requires '.' !in suffix.value
    ensures FileSuffix(ExportUtils.ExportPath(suffix, directory).value) == suffix.value
  {
    var path := ExportUtils.ExportPath(suffix, directory).value;
    var dir := directory.value;
    assert path[|path| - |suffix.value| - 1] == path[|dir|..|dir| + |ExportUtils.FileStem|][|ExportUtils.FileStem| - 1];
    DotFreeTailUnique(path, FileSuffix(path), suffix.value);
  }

  /** The controller's state: the image shown (null before the first load) and the undo stack. */
  datatype Session<T> = Session(image: Option<T>, history: seq<Option<T>>)

  /**
   * The invariant every controller operation keeps: the stack holds no null
   * (only shown images are pushed) and, once something was pushed, an image
   * is shown.
   */
  predicate Valid<T>(s: Session<T>) {
    && (forall i :: 0 <= i < |s.history| ==> s.history[i].Some?)
    && (s.history != [] ==> s.image.Some?)
  }

  /** `saveHistory`: pushes the image, with no null check. */
  function AfterSaveHistory<T>(s: Session<T>, image: Option<T>): (t: Session<T>)
    ensures t.image == s.image
    ensures |t.history| == |s.history| + 1 && t.history[..|s.history|] == s.history
    ensures t.history[|s.history|] == image
  {
    s.(history := s.history + [image])
  }

  /** `undoAction`: on a non-empty stack, pops the top and shows it; otherwise nothing changes. */
  function AfterUndo<T>(s: Session<T>): (t: Session<T>)
    ensures s.history == [] ==> t == s
    ensures s.history != [] ==>
      t.image == s.history[|s.history| - 1] && t.history + [s.history[|s.history| - 1]] == s.history
  {
    if s.history == [] then s
    else s.(image := s.history[|s.history| - 1], history := s.history[..|s.history| - 1])
  }

  /**
   * `applyEdgeDetection` with the filter run to completion: `outcome` is the
   * task's result, None when it failed. With no image nothing happens;
   * otherwise the shown image is pushed first and a result then replaces it.
   */
  function AfterEdgeDetection<T>(s: Session<T>, outcome: Option<T>): (t: Session<T>)
    ensures s.image.None? ==> t == s
    ensures s.image.Some? ==> t.history == s.history + [s.image]
    ensures s.image.Some? && outcome.Some? ==> t.image == outcome
    ensures outcome.None? ==> t.image == s.image
  {
    if s.image.None? then s
    else
      var saved := AfterSaveHistory(s, s.image);
      if outcome.Some? then saved.(image := outcome) else saved
  }

  /**
   * `cropImage`: `cropped` is what `ImageUtils.cropImage` returned. A crop
   * replaces the shown image and is not pushed; a refused crop (null) changes
   * nothing, and so does a crop with no image.
   */
  function AfterCrop<T>(s: Session<T>, cropped: Option<T>): (t: Session<T>)
    ensures t.history == s.history
    ensures t.image == if s.image.Some? && cropped.Some? then cropped else s.image
  {
    if s.image.None? || cropped.None? then s else s.(image := cropped)
  }

  /**
   * `loadImageFromFile`: `decoded` are the images read from the file (one, or
   * the valid members of a zip archive). The first is shown and pushed; the
   * stack is kept. With nothing decoded `images.get(0)` throws and nothing
   * changes.
   */
  function AfterLoad<T>(s: Session<T>, decoded: seq<T>): (t: Session<T>)
    ensures decoded == [] ==> t == s
    ensures decoded != [] ==> t.image == Some(decoded[0]) && t.history == s.history + [Some(decoded[0])]
  {
    if decoded == [] then s
    else AfterSaveHistory(s.(image := Some(decoded[0])), Some(decoded[0]))
  }

  /** Every controller operation keeps the invariant. */
  lemma OperationsPreserveValid<T>(s: Session<T>, outcome: Option<T>, cropped: Option<T>, decoded: seq<T>)
    requires Valid(s)
    ensures Valid(AfterUndo(s))
    ensures Valid(AfterEdgeDetection(s, outcome))
    ensures Valid(AfterCrop(s, cropped))
    ensures Valid(AfterLoad(s, decoded))
  {
    var t := AfterUndo(s);
    if s.history != [] {
      assert forall i :: 0 <= i < |t.history| ==> t.history[i] == s.history[i];
    }
    var f := AfterEdgeDetection(s, outcome);
    if s.image.Some? {
      assert forall i :: 0 <= i < |s.history| ==> f.history[i] == s.history[i];
    }
    var l := AfterLoad(s, decoded);
    if decoded != [] {
      assert forall i :: 0 <= i < |s.history| ==> l.history[i] == s.history[i];
    }
  }

  /** In a valid session an undo never blanks the view. */
  lemma UndoKeepsAnImage<T>(s: Session<T>)
    requires Valid(s) && s.image.Some?
    ensures AfterUndo(s).image.Some?
  {
    if s.history != [] {
      assert s.history[|s.history| - 1].Some?;
    }
  }

  /** An undo right after a load shows the loaded image and leaves the stack as before the load. */
  lemma LoadThenUndo<T>(s: Session<T>, decoded: seq<T>)
    requires decoded != []
    ensures AfterUndo(AfterLoad(s, decoded)) == Session(Some(decoded[0]), s.history)
  {
    assert (s.history + [Some(decoded[0])])[..|s.history|] == s.history;
  }

  /** With an image shown, a filter, successful or failed, followed by an undo restores the session exactly. */
  lemma FilterThenUndo<T>(s: Session<T>, outcome: Option<T>)
    requires s.image.Some?
    ensures AfterUndo(AfterEdgeDetection(s, outcome)) == s
  {
    assert (s.history + [s.image])[..|s.history|] == s.history;
  }

  /**
   * A crop is not recorded: an undo after it returns to the image before the
   * previous recorded step, exactly as an undo before the crop would.
   */
  lemma CropIsNotUndoable<T>(s: Session<T>, cropped: Option<T>)
    requires s.history != []
    ensures AfterUndo(AfterCrop(s, cropped)) == AfterUndo(s)
  {
  }

  class MainController<T> {
    /** The image shown in `imageView`. */
    var image: Option<T>
    /** `imageHistory`, top last. */
    var imageHistory: seq<Option<T>>

    function State(): Session<T>
      reads this
    {
      Session(image, imageHistory)
    }

    constructor ()
      ensures State() == Session(None, []) && Valid(State())
    {
      image := None;
      imageHistory := [];
    }

    method SaveHistory(img: Option<T>)
      modifies this
      ensures State() == AfterSaveHistory(old(State()), img)
    {
      imageHistory := imageHistory + [img];
    }

    method UndoAction()
      modifies this
      ensures State() == AfterUndo(old(State()))
    {
      if imageHistory != [] {
        var previousImage := imageHistory[|imageHistory| - 1];
        imageHistory := imageHistory[..|imageHistory| - 1];
        image := previousImage;
      }
    }

    method ApplyEdgeDetection(outcome: Option<T>)
      modifies this
      ensures State() == AfterEdgeDetection(old(State()), outcome)
    {
      if image.None? {
        return;
      }
      SaveHistory(image);
      if outcome.Some? {
        image := outcome;
      }
    }

    method CropImage(cropped: Option<T>)
      modifies this
      ensures State() == AfterCrop(old(State()), cropped)
    {
      if image.None? {
        return;
      }
      if cropped.Some? {
        image := cropped;
      }
    }

    method LoadImageFromFile(decoded: seq<T>)
      modifies this
      ensures State() == AfterLoad(old(State()), decoded)
    {
      if decoded == [] {
        return;
      }
      image := Some(decoded[0]);
      SaveHistory(image);
    }
  }
}
