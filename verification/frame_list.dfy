/** The list of frames on offer: two built-in frames followed by at most six
    custom frames the user uploaded, kept in browser storage (app.js,
    loadCustomFrames, saveCustomFrames, the frame-upload handler and
    selectFrame). The storage slot is modelled as the list it holds; JSON
    encoding is left out. */
module FrameList {
  import opened Wrappers

  /** A frame on offer: its id, display name, image source and thumbnail. */
  datatype Frame = Frame(id: string, name: string, src: string, thumb: string)

  /** One element of the stored array: a frame record, or any other value
      (null, a number, ...) that is not one. */
  datatype StoredItem = NotAFrame | Entry(frame: Frame)

  /** The most custom frames kept. */
  const MaxCustomFrames: nat := 6

  const BuiltInFrames: seq<Frame> := [
    Frame("f1", "Green", "frame1.png", "frame1_thumb.png"),
    Frame("f2", "Red", "frame2.png", "frame2_thumb.png")
  ]

  /** A frame is usable when both its source and its thumbnail are present
      (non-empty strings are the truthy ones). */
  predicate Usable(f: Frame)
  {
    f.src != "" && f.thumb != ""
  }

  /** The stored items that are usable frames, in their stored order. */
  function KeepUsable(items: seq<StoredItem>): (r: seq<Frame>)
    ensures |r| <= |items|
    ensures forall f :: f in r <==> Entry(f) in items && Usable(f)
  {
    if items == [] then []
    else
      var head := if items[0].Entry? && Usable(items[0].frame) then [items[0].frame] else [];
      assert forall f :: Entry(f) in items <==> Entry(f) == items[0] || Entry(f) in items[1..];
      head + KeepUsable(items[1..])
  }

  /** Filtering keeps order: filtering a concatenation concatenates the filtered parts. */
  lemma {:induction false} KeepUsableAppend(a: seq<StoredItem>, b: seq<StoredItem>)
    ensures KeepUsable(a + b) == KeepUsable(a) + KeepUsable(b)
    decreases |a|
  {
    if a == [] {
      assert a + b == b;
    } else {
      assert (a + b)[0] == a[0] && (a + b)[1..] == a[1..] + b;
      KeepUsableAppend(a[1..], b);
    }
  }

  /** The first at most six elements, as slice(0, 6) gives them. */
  function FirstSix<T>(s: seq<T>): (r: seq<T>)
    ensures |r| <= MaxCustomFrames && |r| <= |s|
    ensures |s| <= MaxCustomFrames ==> r == s
    ensures |s| > MaxCustomFrames ==> |r| == MaxCustomFrames
    ensures forall i :: 0 <= i < |r| ==> r[i] == s[i]
  {
    if |s| <= MaxCustomFrames then s else s[..MaxCustomFrames]
  }

  /** loadCustomFrames: nothing stored, unreadable or not an array gives the
      empty list; otherwise the usable frames, in order, at most six. */
  function LoadCustomFrames(stored: Option<seq<StoredItem>>): (r: seq<Frame>)
    ensures |r| <= MaxCustomFrames
    ensures forall f :: f in r ==> Usable(f)
    ensures stored.None? ==> r == []
    ensures stored.Some? ==>
      var usable := KeepUsable(stored.value);
      |r| == (if |usable| < MaxCustomFrames then |usable| else MaxCustomFrames) && r == usable[..|r|]
  {
    if stored.None? then [] else FirstSix(KeepUsable(stored.value))
  }

  /** saveCustomFrames: stores the first at most six frames as frame records. */
  function SaveCustomFrames(arr: seq<Frame>): (stored: Option<seq<StoredItem>>)
    ensures stored.Some? && |stored.value| == |FirstSix(arr)|
    ensures forall i :: 0 <= i < |stored.value| ==> stored.value[i] == Entry(arr[i])
  {
    Some(seq(|FirstSix(arr)|, i requires 0 <= i < |FirstSix(arr)| => Entry(arr[i])))
  }

  /** Saving usable frames and loading them back gives their first six. */
  lemma SaveThenLoad(arr: seq<Frame>)
    requires forall f :: f in arr ==> Usable(f)
    ensures LoadCustomFrames(SaveCustomFrames(arr)) == FirstSix(arr)
  {
    var items := SaveCustomFrames(arr).value;
    KeepAllUsable(items, FirstSix(arr));
  }

  /** Filtering frame records that are all usable keeps every one of them. */
  lemma {:induction false} KeepAllUsable(items: seq<StoredItem>, fs: seq<Frame>)
    requires |items| == |fs|
    requires forall i :: 0 <= i < |items| ==> items[i] == Entry(fs[i]) && Usable(fs[i])
    ensures KeepUsable(items) == fs
    decreases |items|
  {
    if items != [] {
      KeepAllUsable(items[1..], fs[1..]);
    }
  }

  /** The storage slot after an upload: the new frame put first, then the
      frames loaded before, saved, so only the first six survive. */
  function AddCustomFrame(stored: Option<seq<StoredItem>>, item: Frame): (r: Option<seq<StoredItem>>)
    ensures r.Some?
    ensures var before := LoadCustomFrames(stored);
      |r.value| == (if |before| < MaxCustomFrames then |before| + 1 else MaxCustomFrames) &&
      r.value[0] == Entry(item) &&
      forall i :: 1 <= i < |r.value| ==> r.value[i] == Entry(before[i - 1])
  {
    SaveCustomFrames([item] + LoadCustomFrames(stored))
  }

  /** After an upload of a usable frame, the custom list is the new frame
      followed by the five newest of the earlier ones. */
  lemma UploadPutsNewestFirst(stored: Option<seq<StoredItem>>, item: Frame)
    requires Usable(item)
    ensures var before := LoadCustomFrames(stored);
      var after := LoadCustomFrames(AddCustomFrame(stored, item));
      after == FirstSix([item] + before) && after[0] == item &&
      after[1..] == before[..if |before| < MaxCustomFrames then |before| else MaxCustomFrames - 1]
  {
    var before := LoadCustomFrames(stored);
    SaveThenLoad([item] + before);
  }

  /** The frames on offer: the built-in frames, then the custom ones. */
  function AllFrames(stored: Option<seq<StoredItem>>): (r: seq<Frame>)
    ensures |BuiltInFrames| <= |r| <= |BuiltInFrames| + MaxCustomFrames
    ensures r[..|BuiltInFrames|] == BuiltInFrames
    ensures r[|BuiltInFrames|..] == LoadCustomFrames(stored)
  {
    BuiltInFrames + LoadCustomFrames(stored)
  }

  /** frames.find: the first frame with the id, or None when there is none. */
  function FindFrame(frames: seq<Frame>, id: string): (r: Option<Frame>)
    ensures r.None? <==> forall i :: 0 <= i < |frames| ==> frames[i].id != id
    ensures r.Some? ==> exists i :: 0 <= i < |frames| && frames[i] == r.value && r.value.id == id &&
                                   forall j :: 0 <= j < i ==> frames[j].id != id
  {
    if frames == [] then None
    else if frames[0].id == id then Some(frames[0])
    else
      var r := FindFrame(frames[1..], id);
      assert forall i :: 1 <= i < |frames| ==> frames[i] == frames[1..][i - 1];
      r
  }
}
