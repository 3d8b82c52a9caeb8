/**
 * The comment-import task of the videos app.  The YouTube client is a
 * parameter: `fetch` gives, for a video's YouTube id, what the client call
 * produced (it raised, or it returned a list of comment threads or None).
 */
module VideoTasks {
  import opened Wrappers
  import opened VideoModels

  /** The snippet of a thread's top-level comment, with timestamps already parsed. */
  datatype TopLevelSnippet = TopLevelSnippet(
    authorDisplayName: string,
    authorProfileImageUrl: string,
    textOriginal: string,
    textDisplay: string,
    publishedAt: int,
    updatedAt: int)

  datatype TopLevelComment = TopLevelComment(id: string, snippet: TopLevelSnippet)

  /** A comment thread as the YouTube API returns it; `id` is the thread's own id. */
  datatype CommentThread = CommentThread(id: string, topLevelComment: TopLevelComment)

  /** What the client call produced. */
  datatype ClientOutcome = ClientRaised | ClientReturned(threads: Option<seq<CommentThread>>)

  /**
   * Which way the task left.  The Python function returns None on every
   * path; the exit names the branch (the log line it writes).
   */
  datatype Exit = VideoMissing | ClientFailed | Finished(created: nat)

  datatype TaskRun = TaskRun(store: Store, exit: Exit)

  /** The threads to import: a falsy client result (None or []) imports none. */
  function ThreadsOf(o: ClientOutcome): seq<CommentThread>
  {
    if o.ClientReturned? && o.threads.Some? then o.threads.value else []
  }

  /** The VideoComment row created for one thread. */
  function CommentFor(video: Pk, t: CommentThread): (c: VideoComment)
    ensures c.video == video && c.youtubeId == t.topLevelComment.id
    ensures c.authorDisplayName == t.topLevelComment.snippet.authorDisplayName
    ensures c.authorProfileImageUrl == t.topLevelComment.snippet.authorProfileImageUrl
    ensures c.commentRaw == t.topLevelComment.snippet.textOriginal
    ensures c.commentRich == t.topLevelComment.snippet.textDisplay
    ensures c.published == t.topLevelComment.snippet.publishedAt
    ensures c.updated == t.topLevelComment.snippet.updatedAt
    ensures !CommentComplete(c)
  {
    var d := t.topLevelComment.snippet;
    VideoComment(video, 0.0, 0.0, JNull, false, t.topLevelComment.id,
                 d.authorDisplayName, d.authorProfileImageUrl, d.textOriginal, d.textDisplay,
                 d.publishedAt, d.updatedAt)
  }

  /** The rows created for a list of threads, one per thread, in order. */
  function CommentsFor(video: Pk, threads: seq<CommentThread>): (cs: seq<VideoComment>)
    ensures |cs| == |threads|
    ensures forall i :: 0 <= i < |threads| ==> cs[i] == CommentFor(video, threads[i])
  {
    seq(|threads|, i requires 0 <= i < |threads| => CommentFor(video, threads[i]))
  }

  /** `youtube_import_comments(video_pk)`. */
  function YoutubeImportComments(s: Store, videoPk: Pk, fetch: string -> ClientOutcome): (r: TaskRun)
    ensures r.store.videos == s.videos && r.store.nextPk == s.nextPk
    ensures |s.comments| <= |r.store.comments| && r.store.comments[..|s.comments|] == s.comments
    ensures videoPk !in s.videos <==> r.exit == VideoMissing
    ensures videoPk in s.videos && fetch(s.videos[videoPk].youtubeId).ClientRaised? <==> r.exit == ClientFailed
    ensures r.exit.VideoMissing? || r.exit.ClientFailed? ==> r.store == s
    ensures r.exit.Finished? ==>
              r.store.comments == s.comments + CommentsFor(videoPk, ThreadsOf(fetch(s.videos[videoPk].youtubeId)))
              && r.exit.created == |ThreadsOf(fetch(s.videos[videoPk].youtubeId))|
  {
    if videoPk !in s.videos then TaskRun(s, VideoMissing)
    else
      var outcome := fetch(s.videos[videoPk].youtubeId);
      if outcome.ClientRaised? then TaskRun(s, ClientFailed)
      else
        var threads := ThreadsOf(outcome);
        TaskRun(s.(comments := s.comments + CommentsFor(videoPk, threads)), Finished(|threads|))
  }

  /**
   * For n returned threads exactly n comments are appended, in the order of
   * the threads, each linked to the looked-up video and carrying the
   * top-level comment's id (not the thread's id).
   */
  lemma ImportProjectsEachThread(s: Store, videoPk: Pk, fetch: string -> ClientOutcome, threads: seq<CommentThread>)
    requires videoPk in s.videos
    requires fetch(s.videos[videoPk].youtubeId) == ClientReturned(Some(threads))
    ensures var r := YoutubeImportComments(s, videoPk, fetch);
            |r.store.comments| == |s.comments| + |threads|
            && forall i :: 0 <= i < |threads| ==>
                 r.store.comments[|s.comments| + i].video == videoPk
                 && r.store.comments[|s.comments| + i].youtubeId == threads[i].topLevelComment.id
                 && r.store.comments[|s.comments| + i].commentRaw == threads[i].topLevelComment.snippet.textOriginal
                 && r.store.comments[|s.comments| + i].commentRich == threads[i].topLevelComment.snippet.textDisplay
  {
    var r := YoutubeImportComments(s, videoPk, fetch);
    assert r.store.comments == s.comments + CommentsFor(videoPk, threads);
  }

  /** A missing video, a failing client and an empty or None result all create nothing. */
  lemma ImportCreatesNothingOnEarlyExit(s: Store, videoPk: Pk, fetch: string -> ClientOutcome)
    requires videoPk !in s.videos
             || fetch(s.videos[videoPk].youtubeId) in {ClientRaised, ClientReturned(None), ClientReturned(Some([]))}
    ensures YoutubeImportComments(s, videoPk, fetch).store == s
  {
  }

  /**
   * Importing comments never changes whether a video can be analysed: the
   * task writes comment rows only, whichever way it exits.
   */
  lemma ImportKeepsAnalysability(s: Store, videoPk: Pk, fetch: string -> ClientOutcome)
    ensures var r := YoutubeImportComments(s, videoPk, fetch);
            forall k :: k in s.videos ==> k in r.store.videos && (CanBeAnalyzed(r.store.videos[k]) <==> CanBeAnalyzed(s.videos[k]))
  {
  }

  /** Two comments of one video that carry the same YouTube id. */
  predicate HasDuplicate(cs: seq<VideoComment>)
  {
    exists i, j :: 0 <= i < j < |cs| && cs[i].video == cs[j].video && cs[i].youtubeId == cs[j].youtubeId
  }

  /**
   * There is no de-duplication: running the task twice with the same client
   * result appends the same rows twice, so any non-empty import leaves
   * duplicate comments behind.
   */
  lemma RerunDuplicatesComments(s: Store, videoPk: Pk, fetch: string -> ClientOutcome)
    requires videoPk in s.videos
    requires ThreadsOf(fetch(s.videos[videoPk].youtubeId)) != []
    ensures var once := YoutubeImportComments(s, videoPk, fetch);
            var twice := YoutubeImportComments(once.store, videoPk, fetch);
            var rows := CommentsFor(videoPk, ThreadsOf(fetch(s.videos[videoPk].youtubeId)));
            twice.store.comments == s.comments + rows + rows
            && HasDuplicate(twice.store.comments)
  {
    var threads := ThreadsOf(fetch(s.videos[videoPk].youtubeId));
    var rows := CommentsFor(videoPk, threads);
    var once := YoutubeImportComments(s, videoPk, fetch);
    assert once.store.comments == s.comments + rows;
    assert once.store.videos == s.videos;
    var twice := YoutubeImportComments(once.store, videoPk, fetch);
    assert twice.store.comments == s.comments + rows + rows;
    var all := twice.store.comments;
    var i, j := |s.comments|, |s.comments| + |rows|;
    assert all[i] == rows[0] && all[j] == rows[0];
  }
}
