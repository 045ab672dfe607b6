/**
 * `caption_to_index` of the uploader (`upload/upload.py`): the
 * one-based position of the workbench column with a given caption.
 */
module Upload {

  /** A workbench template mapping item: a column's caption and its place in the view */
  datatype MappingItem = MappingItem(caption: string, viewOrder: int)

  datatype Outcome = Index(index: int) | Raised(message: string)

  function NoColumnMessage(caption: string): string {
    "no wb column named " + caption
  }

  /**
   * `caption_to_index`: one past the view order of the first item with
   * the caption; an exception when no item has it (in particular when
   * there are no items).
   */
  function CaptionToIndex(items: seq<MappingItem>, caption: string): (r: Outcome)
    ensures r.Raised? <==> forall i :: 0 <= i < |items| ==> items[i].caption != caption
    ensures r.Raised? ==> r.message == NoColumnMessage(caption)
    ensures r.Index? ==> exists i :: (0 <= i < |items| && items[i].caption == caption &&
      r.index == items[i].viewOrder + 1 && forall j :: 0 <= j < i ==> items[j].caption != caption)
  {
    if items == [] then Raised(NoColumnMessage(caption))
    else if items[0].caption == caption then Index(items[0].viewOrder + 1)
    else
      var r := CaptionToIndex(items[1..], caption);
      assert forall j :: 1 <= j < |items| ==> items[j] == items[1..][j - 1];
      r
  }

  /** Items after the first one with the caption do not affect the result */
  lemma {:induction false} LaterItemsIrrelevant(items: seq<MappingItem>, rest: seq<MappingItem>, caption: string)
    requires exists i :: 0 <= i < |items| && items[i].caption == caption
    ensures CaptionToIndex(items + rest, caption) == CaptionToIndex(items, caption)
  {
    if items[0].caption != caption {
      assert (items + rest)[1..] == items[1..] + rest;
      var i :| 0 <= i < |items| && items[i].caption == caption;
      assert items[1..][i - 1] == items[i];
      LaterItemsIrrelevant(items[1..], rest, caption);
    }
  }
}
