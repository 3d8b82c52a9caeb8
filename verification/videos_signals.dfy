/**
 * The post-save receiver of the videos app: a save that created a Video
 * defers the comment-import task for it.  The task queue is represented by
 * the list of deferred calls a receiver produces.
 */
module VideoSignals {
  import opened Wrappers

  /** The task functions the receiver can defer; only one exists. */
  datatype TaskName = YoutubeImportComments

  /** One deferred call: which task, the primary key it is applied to, and the queue. */
  datatype Deferred = Deferred(task: TaskName, pk: nat, queue: string)

  /** The queue the comment import is placed on. */
  const CommentImportQueue: string := "youtube"

  /**
   * The receiver.  `created` is the keyword argument of the signal; `None`
   * stands for the argument being absent.  Only a truthy `created` defers.
   */
  function ImportYoutubeComments(pk: nat, created: Option<bool>): (r: seq<Deferred>)
    ensures created == Some(true) <==> |r| == 1
    ensures created != Some(true) <==> r == []
    ensures forall d :: d in r ==> d == Deferred(YoutubeImportComments, pk, CommentImportQueue)
  {
    if created == Some(true) then [Deferred(YoutubeImportComments, pk, CommentImportQueue)] else []
  }

  /** A save event as the signal reports it: the instance's pk and the `created` flag. */
  datatype SaveEvent = SaveEvent(pk: nat, created: Option<bool>)

  /** Everything the receiver defers over a sequence of saves, in order. */
  function DeferredBy(saves: seq<SaveEvent>): seq<Deferred>
  {
    if saves == [] then []
    else DeferredBy(saves[..|saves| - 1])
         + ImportYoutubeComments(saves[|saves| - 1].pk, saves[|saves| - 1].created)
  }

  /** The primary keys of the creating saves, in order. */
  function CreatedPks(saves: seq<SaveEvent>): seq<nat>
  {
    if saves == [] then []
    else CreatedPks(saves[..|saves| - 1])
         + (if saves[|saves| - 1].created == Some(true) then [saves[|saves| - 1].pk] else [])
  }

  /**
   * Over any sequence of saves the receiver defers exactly one comment import
   * per creating save, for that save's pk, in the order of the saves, and all
   * of them on the comment-import queue.
   */
  lemma {:induction false} DeferredMatchesCreations(saves: seq<SaveEvent>)
    ensures |DeferredBy(saves)| == |CreatedPks(saves)|
    ensures forall i :: 0 <= i < |DeferredBy(saves)| ==>
              DeferredBy(saves)[i] == Deferred(YoutubeImportComments, CreatedPks(saves)[i], CommentImportQueue)
  {
    if saves != [] {
      var init := saves[..|saves| - 1];
      var last := saves[|saves| - 1];
      DeferredMatchesCreations(init);
      assert DeferredBy(saves) == DeferredBy(init) + ImportYoutubeComments(last.pk, last.created);
    }
  }
}
