/**
 * The videos app's records (Video and VideoComment), their derived
 * "completeness" predicates, their default orderings, and the datastore
 * they live in.  Saving a Video runs the post-save receiver of VideoSignals.
 */
module VideoModels {
  import opened Wrappers
  import VideoSignals
  import Listing

  type Pk = nat
  type UserId = nat

  /** A value held by a JSON field.  Only its Python truthiness matters here. */
  datatype Json =
    | JNull
    | JBool(b: bool)
    | JNumber(n: real)
    | JString(s: string)
    | JArray(items: seq<Json>)
    | JObject(fields: map<string, Json>)

  /** Python truthiness of a JSON value: null, false, 0, "", [] and {} are falsy. */
  predicate Truthy(j: Json)
  {
    match j
    case JNull => false
    case JBool(b) => b
    case JNumber(n) => n != 0.0
    case JString(s) => s != ""
    case JArray(items) => items != []
    case JObject(fields) => fields != map[]
  }

  /** A video within a project.  Date-times are integer timestamps. */
  datatype Video = Video(
    owner: UserId,
    project: Pk,
    sentiment: real,
    magnitude: real,
    analyzedTranscript: Json,
    transcriptFailed: bool,
    youtubeId: string,
    name: string,
    description: string,
    transcript: string,
    published: int,
    thumbnailDefault: string,
    thumbnailMedium: string,
    thumbnailHigh: string,
    likes: nat,
    dislikes: nat,
    commentCount: nat)

  /** A user's comment on a video; `video` is the parent Video's pk. */
  datatype VideoComment = VideoComment(
    video: Pk,
    sentiment: real,
    magnitude: real,
    analyzedComment: Json,
    analysisFailed: bool,
    youtubeId: string,
    authorDisplayName: string,
    authorProfileImageUrl: string,
    commentRaw: string,
    commentRich: string,
    published: int,
    updated: int)

  /** `Video.analysis_complete`: the transcript analysis is stored and truthy. */
  predicate AnalysisComplete(v: Video)
  {
    Truthy(v.analyzedTranscript)
  }

  /** `Video.can_be_analyzed`: a transcript is available. */
  predicate CanBeAnalyzed(v: Video)
  {
    v.transcript != ""
  }

  /** `VideoComment.analysis_complete`: the comment analysis is stored and truthy. */
  predicate CommentComplete(c: VideoComment)
  {
    Truthy(c.analyzedComment)
  }

  /**
   * Both "no analysis" (None) and an empty analysis ({}) leave a video or a
   * comment incomplete; any non-empty analysis object completes it.
   */
  lemma CompletenessNeedsNonEmptyAnalysis(v: Video, c: VideoComment)
    ensures v.analyzedTranscript == JNull ==> !AnalysisComplete(v)
    ensures v.analyzedTranscript == JObject(map[]) ==> !AnalysisComplete(v)
    ensures v.analyzedTranscript.JObject? && v.analyzedTranscript.fields != map[] ==> AnalysisComplete(v)
    ensures c.analyzedComment == JNull ==> !CommentComplete(c)
    ensures c.analyzedComment == JObject(map[]) ==> !CommentComplete(c)
    ensures c.analyzedComment.JObject? && c.analyzedComment.fields != map[] ==> CommentComplete(c)
  {
  }

  /** The fields a caller passes to `Video.objects.create`; absent counts are `None`. */
  datatype VideoInfo = VideoInfo(
    youtubeId: string,
    name: string,
    description: string,
    published: int,
    thumbnailDefault: string,
    thumbnailMedium: string,
    thumbnailHigh: string,
    likes: Option<nat>,
    dislikes: Option<nat>,
    commentCount: Option<nat>)

  /** A freshly constructed Video: every field not given takes its model default. */
  function NewVideo(owner: UserId, project: Pk, info: VideoInfo): (v: Video)
    ensures v.sentiment == 0.0 && v.magnitude == 0.0
    ensures !v.transcriptFailed
    ensures !AnalysisComplete(v) && !CanBeAnalyzed(v)
    ensures info.likes.None? ==> v.likes == 0
    ensures info.dislikes.None? ==> v.dislikes == 0
    ensures info.commentCount.None? ==> v.commentCount == 0
    ensures v.youtubeId == info.youtubeId && v.owner == owner && v.project == project
    ensures v.name == info.name && v.description == info.description && v.published == info.published
    ensures v.thumbnailDefault == info.thumbnailDefault && v.thumbnailMedium == info.thumbnailMedium
    ensures v.thumbnailHigh == info.thumbnailHigh
    ensures info.likes.Some? ==> v.likes == info.likes.value
    ensures info.dislikes.Some? ==> v.dislikes == info.dislikes.value
    ensures info.commentCount.Some? ==> v.commentCount == info.commentCount.value
  {
    Video(owner, project, 0.0, 0.0, JNull, false,
          info.youtubeId, info.name, info.description, "", info.published,
          info.thumbnailDefault, info.thumbnailMedium, info.thumbnailHigh,
          info.likes.GetOr(0), info.dislikes.GetOr(0), info.commentCount.GetOr(0))
  }

  /**
   * Default ordering of videos (`-published`): `a` may be listed before `b`
   * when it was published no earlier.
   */
  predicate VideoListedBefore(a: Video, b: Video)
  {
    a.published >= b.published
  }

  /**
   * Default ordering of comments (`-updated`, then `-published`): the most
   * recently updated first, ties broken by the most recently published.
   */
  predicate CommentListedBefore(a: VideoComment, b: VideoComment)
  {
    a.updated > b.updated || (a.updated == b.updated && a.published >= b.published)
  }

  /** A listing that respects the comment ordering at every pair of positions. */
  predicate CommentsListed(s: seq<VideoComment>)
  {
    Listing.ListedBy(s, CommentListedBefore)
  }

  /** Any two videos compare by publication time, transitively. */
  lemma VideoOrderingIsTotalPreorder()
    ensures Listing.TotalPreorder(VideoListedBefore)
  {
  }

  /** Any two comments compare by (updated, published), transitively. */
  lemma CommentOrderingIsTotalPreorder()
    ensures Listing.TotalPreorder(CommentListedBefore)
  {
  }

  /** A video queryset in its default order: the same videos, newest publication first. */
  function ListVideos(vs: seq<Video>): (r: seq<Video>)
    ensures multiset(r) == multiset(vs)
    ensures Listing.ListedBy(r, VideoListedBefore)
  {
    VideoOrderingIsTotalPreorder();
    Listing.SortByListed(vs, VideoListedBefore);
    Listing.SortBy(vs, VideoListedBefore)
  }

  /** A comment queryset in its default order: the same comments, most recently updated first. */
  function ListComments(cs: seq<VideoComment>): (r: seq<VideoComment>)
    ensures multiset(r) == multiset(cs)
    ensures CommentsListed(r)
  {
    CommentOrderingIsTotalPreorder();
    Listing.SortByListed(cs, CommentListedBefore);
    Listing.SortBy(cs, CommentListedBefore)
  }

  /** In a comment listing, the first comment is the most recently updated one. */
  lemma ListedHeadIsLatest(s: seq<VideoComment>)
    requires CommentsListed(s) && |s| > 0
    ensures forall c :: c in s ==> c.updated <= s[0].updated
    ensures forall c :: c in s && c.updated == s[0].updated ==> c.published <= s[0].published
  {
    forall c | c in s
      ensures c.updated <= s[0].updated
      ensures c.updated == s[0].updated ==> c.published <= s[0].published
    {
      var k :| 0 <= k < |s| && s[k] == c;
      if k > 0 {
        assert CommentListedBefore(s[0], s[k]);
      }
    }
  }

  /**
   * The datastore: videos keyed by pk (a video may disappear before a task
   * for it runs), the comments in creation order (a comment's pk is its
   * position), and the next pk the store hands out for a video.
   */
  datatype Store = Store(videos: map<Pk, Video>, comments: seq<VideoComment>, nextPk: Pk)

  /** Every stored video's pk was handed out by the store. */
  predicate Valid(s: Store)
  {
    forall k :: k in s.videos ==> k < s.nextPk
  }

  /**
   * `Video.comment_analysis_complete`: walks the video's comments and stops
   * at the first one whose analysis is not complete.  Vacuously true for a
   * video without comments.
   */
  method CommentAnalysisComplete(s: Store, video: Pk) returns (r: bool)
    ensures r <==> forall i :: 0 <= i < |s.comments| && s.comments[i].video == video ==> CommentComplete(s.comments[i])
  {
    var i := 0;
    while i < |s.comments|
      invariant 0 <= i <= |s.comments|
      invariant forall j :: 0 <= j < i && s.comments[j].video == video ==> CommentComplete(s.comments[j])
    {
      if s.comments[i].video == video && !CommentComplete(s.comments[i]) {
        return false;
      }
      i := i + 1;
    }
    return true;
  }

  /** What a save did: the new store, the saved video's pk, and what the receiver deferred. */
  datatype SaveResult = SaveResult(store: Store, pk: Pk, deferred: seq<VideoSignals.Deferred>)

  /**
   * `Video.save()` followed by the post-save receiver wired up for Video.
   * Without a pk the store inserts under a fresh pk; with a pk it updates
   * the stored row, or inserts under that pk if there is none.  The save
   * reports `created` exactly when it inserted.
   */
  function SaveVideo(s: Store, pk: Option<Pk>, v: Video): (r: SaveResult)
    requires Valid(s)
    ensures Valid(r.store)
    ensures r.store.comments == s.comments
    ensures r.pk in r.store.videos && r.store.videos[r.pk] == v
    ensures forall k :: k in s.videos && k != r.pk ==> k in r.store.videos && r.store.videos[k] == s.videos[k]
    ensures r.store.videos.Keys == s.videos.Keys + {r.pk}
    ensures pk.Some? ==> r.pk == pk.value
    ensures pk.None? ==> r.pk !in s.videos
    ensures r.deferred == VideoSignals.ImportYoutubeComments(r.pk, Some(r.pk !in s.videos))
  {
    match pk
    case None =>
      SaveResult(Store(s.videos[s.nextPk := v], s.comments, s.nextPk + 1), s.nextPk,
                 VideoSignals.ImportYoutubeComments(s.nextPk, Some(true)))
    case Some(k) =>
      var created := k !in s.videos;
      var next := if k < s.nextPk then s.nextPk else k + 1;
      SaveResult(Store(s.videos[k := v], s.comments, next), k,
                 VideoSignals.ImportYoutubeComments(k, Some(created)))
  }

  /** `Video.objects.create(...)`: a save without a pk. */
  function CreateVideo(s: Store, owner: UserId, project: Pk, info: VideoInfo): (r: SaveResult)
    requires Valid(s)
    ensures Valid(r.store)
    ensures r.pk !in s.videos && r.store.videos == s.videos[r.pk := NewVideo(owner, project, info)]
    ensures r.store.comments == s.comments
    ensures r.deferred == [VideoSignals.Deferred(VideoSignals.YoutubeImportComments, r.pk, VideoSignals.CommentImportQueue)]
  {
    SaveVideo(s, None, NewVideo(owner, project, info))
  }

  /**
   * Whether a stored video can be analysed changes only with its
   * transcript: a created video cannot be analysed yet, creating it leaves
   * every other video as it was, and re-saving a video with its transcript
   * unchanged (say, with a new analysis or failure flag) keeps the answer.
   */
  lemma {:induction false} AnalysabilityFollowsTranscript(s: Store, k: Pk, v: Video, owner: UserId, project: Pk, info: VideoInfo)
    requires Valid(s) && k in s.videos
    ensures var r := SaveVideo(s, Some(k), v);
            && (v.transcript == s.videos[k].transcript ==> (CanBeAnalyzed(r.store.videos[k]) <==> CanBeAnalyzed(s.videos[k])))
            && forall j :: j in s.videos && j != k ==> (CanBeAnalyzed(r.store.videos[j]) <==> CanBeAnalyzed(s.videos[j]))
    ensures var c := CreateVideo(s, owner, project, info);
            && !CanBeAnalyzed(c.store.videos[c.pk])
            && forall j :: j in s.videos ==> (CanBeAnalyzed(c.store.videos[j]) <==> CanBeAnalyzed(s.videos[j]))
  {
    var c := CreateVideo(s, owner, project, info);
    assert c.store.videos[c.pk] == NewVideo(owner, project, info);
  }

  /**
   * Re-saving a stored video never defers anything; creating one defers
   * exactly the comment import for it.
   */
  lemma SaveDefersOnlyOnCreation(s: Store, pk: Pk, v: Video)
    requires Valid(s)
    ensures pk in s.videos ==> SaveVideo(s, Some(pk), v).deferred == []
    ensures pk !in s.videos ==> |SaveVideo(s, Some(pk), v).deferred| == 1
    ensures |SaveVideo(s, None, v).deferred| == 1
  {
  }
}
