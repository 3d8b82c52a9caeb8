/**
 * The dashboard views' logic: owner-scoped querysets, the video search
 * (drop already-added results, then build the formset's initial rows) and
 * the bulk video add.  The YouTube search result is a parameter; form
 * validation is abstract (a validity flag and each form's cleaned data).
 */
module DashboardViews {
  import opened Wrappers
  import opened VideoModels
  import VideoSignals
  import Listing

  datatype Project = Project(owner: UserId, name: string)

  type Projects = map<Pk, Project>

  // ---------------------------------------------------------------------
  // Owner-scoped querysets

  /** `Project.objects.filter(owner=user)`: the dashboard lists exactly the user's projects. */
  function OwnedProjects(projects: Projects, user: UserId): (r: Projects)
    ensures forall k :: k in r <==> k in projects && projects[k].owner == user
    ensures forall k :: k in r ==> r[k] == projects[k]
  {
    map k | k in projects && projects[k].owner == user :: projects[k]
  }

  /** `get_object_or_404(Project, pk=pk, owner=user)`: None is the 404. */
  function GetOwnedProject(projects: Projects, pk: Pk, user: UserId): (r: Option<Project>)
    ensures r.Some? ==> pk in projects && r.value == projects[pk] && r.value.owner == user
  {
    if pk in projects && projects[pk].owner == user then Some(projects[pk]) else None
  }

  /** A project is found for a user exactly when it is in that user's project list. */
  lemma OwnedProjectFoundIffListed(projects: Projects, pk: Pk, user: UserId)
    ensures GetOwnedProject(projects, pk, user).Some? <==> pk in OwnedProjects(projects, user)
    ensures forall other :: other != user && pk in OwnedProjects(projects, user) ==> GetOwnedProject(projects, pk, other).None?
  {
  }

  /** `Video.objects.filter(project=project_pk, owner=user)` of the video detail and transcript views. */
  function OwnedVideos(s: Store, projectPk: Pk, user: UserId): (r: map<Pk, Video>)
    ensures forall k :: k in r <==> k in s.videos && s.videos[k].project == projectPk && s.videos[k].owner == user
    ensures forall k :: k in r ==> r[k] == s.videos[k]
  {
    map k | k in s.videos && s.videos[k].project == projectPk && s.videos[k].owner == user :: s.videos[k]
  }

  /** The pks below `n` of the project's videos, in increasing order. */
  function ProjectPks(videos: map<Pk, Video>, projectPk: Pk, n: nat): (r: seq<Pk>)
    ensures forall k :: k in r <==> k < n && k in videos && videos[k].project == projectPk
    ensures forall i, j :: 0 <= i < j < |r| ==> r[i] < r[j]
    ensures forall i :: 0 <= i < |r| ==> r[i] < n
  {
    if n == 0 then []
    else
      var rest := ProjectPks(videos, projectPk, n - 1);
      if n - 1 in videos && videos[n - 1].project == projectPk then rest + [n - 1] else rest
  }

  /** The videos stored under the given pks, one per pk, in the pks' order. */
  function VideosAt(videos: map<Pk, Video>, pks: seq<Pk>): (r: seq<Video>)
    requires forall i :: 0 <= i < |pks| ==> pks[i] in videos
    ensures |r| == |pks| && forall i :: 0 <= i < |pks| ==> r[i] == videos[pks[i]]
  {
    seq(|pks|, i requires 0 <= i < |pks| => videos[pks[i]])
  }

  /** A reordering of the project's stored videos holds each of them and nothing else. */
  lemma ListingCoversProject(s: Store, projectPk: Pk, listed: seq<Video>)
    requires Valid(s)
    requires multiset(listed) == multiset(VideosAt(s.videos, ProjectPks(s.videos, projectPk, s.nextPk)))
    ensures forall v :: v in listed ==> v.project == projectPk && v in s.videos.Values
    ensures forall k :: k in s.videos && s.videos[k].project == projectPk ==> s.videos[k] in listed
    ensures |listed| == |ProjectPks(s.videos, projectPk, s.nextPk)|
  {
    var pks := ProjectPks(s.videos, projectPk, s.nextPk);
    var vs := VideosAt(s.videos, pks);
    forall v | v in listed ensures v.project == projectPk && v in s.videos.Values {
      assert v in multiset(vs);
      var i :| 0 <= i < |vs| && vs[i] == v;
      assert s.videos[pks[i]] == v;
    }
    forall k | k in s.videos && s.videos[k].project == projectPk ensures s.videos[k] in listed {
      var i :| 0 <= i < |pks| && pks[i] == k;
      assert vs[i] == s.videos[k];
      assert s.videos[k] in multiset(vs);
    }
    assert |listed| == |multiset(listed)| == |multiset(vs)| == |vs|;
  }

  /**
   * `ProjectDetailView`: the project is looked up among the user's own
   * (None is the 404), and its videos are listed in the Video ordering.
   */
  function ProjectVideos(s: Store, projects: Projects, user: UserId, projectPk: Pk): (r: Option<seq<Video>>)
    requires Valid(s)
    ensures r.None? <==> GetOwnedProject(projects, projectPk, user).None?
    ensures r.Some? ==> Listing.ListedBy(r.value, VideoListedBefore)
    ensures r.Some? ==> forall v :: v in r.value ==> v.project == projectPk && v in s.videos.Values
    ensures r.Some? ==> forall k :: k in s.videos && s.videos[k].project == projectPk ==> s.videos[k] in r.value
    ensures r.Some? ==> |r.value| == |ProjectPks(s.videos, projectPk, s.nextPk)|
    ensures r.Some? ==> multiset(r.value) == multiset(VideosAt(s.videos, ProjectPks(s.videos, projectPk, s.nextPk)))
  {
    match GetOwnedProject(projects, projectPk, user)
    case None => None
    case Some(_) =>
      var pks := ProjectPks(s.videos, projectPk, s.nextPk);
      var listed := ListVideos(VideosAt(s.videos, pks));
      ListingCoversProject(s, projectPk, listed);
      Some(listed)
  }

  /** `VideoComment.objects.filter(video=video)`: the video's comments, in creation order. */
  function CommentsOf(cs: seq<VideoComment>, videoPk: Pk): (r: seq<VideoComment>)
    ensures forall c :: c in r ==> c.video == videoPk
    ensures forall c: VideoComment :: c.video == videoPk ==> multiset(r)[c] == multiset(cs)[c]
  {
    if cs == [] then []
    else
      var rest := CommentsOf(cs[..|cs| - 1], videoPk);
      var last := cs[|cs| - 1];
      assert cs == cs[..|cs| - 1] + [last];
      if last.video == videoPk then rest + [last] else rest
  }

  /**
   * `VideoCommentListView`: the project must be the user's and the video
   * must belong to it (None is the 404); the video's comments are listed in
   * the comment ordering.
   */
  function VideoCommentList(s: Store, projects: Projects, user: UserId, projectPk: Pk, videoPk: Pk)
    : (r: Option<seq<VideoComment>>)
    ensures r.None? <==> GetOwnedProject(projects, projectPk, user).None?
                         || videoPk !in s.videos || s.videos[videoPk].project != projectPk
    ensures r.Some? ==> CommentsListed(r.value)
    ensures r.Some? ==> forall c :: c in r.value ==> c.video == videoPk
    ensures r.Some? ==> forall c: VideoComment :: c.video == videoPk ==> multiset(r.value)[c] == multiset(s.comments)[c]
  {
    if GetOwnedProject(projects, projectPk, user).None? then None
    else if videoPk !in s.videos || s.videos[videoPk].project != projectPk then None
    else
      var listed := ListComments(CommentsOf(s.comments, videoPk));
      assert forall c :: c in listed ==> c in multiset(CommentsOf(s.comments, videoPk));
      Some(listed)
  }

  /** The first comment a video's comment page shows is its most recently updated one. */
  lemma CommentPageStartsWithLatest(s: Store, projects: Projects, user: UserId, projectPk: Pk, videoPk: Pk)
    requires VideoCommentList(s, projects, user, projectPk, videoPk).Some?
    requires exists i :: 0 <= i < |s.comments| && s.comments[i].video == videoPk
    ensures var page := VideoCommentList(s, projects, user, projectPk, videoPk).value;
            |page| > 0 && forall i :: 0 <= i < |s.comments| && s.comments[i].video == videoPk ==>
                            s.comments[i].updated <= page[0].updated
  {
    var page := VideoCommentList(s, projects, user, projectPk, videoPk).value;
    var i0 :| 0 <= i0 < |s.comments| && s.comments[i0].video == videoPk;
    assert multiset(page)[s.comments[i0]] == multiset(s.comments)[s.comments[i0]] > 0;
    ListedHeadIsLatest(page);
    forall i | 0 <= i < |s.comments| && s.comments[i].video == videoPk
      ensures s.comments[i].updated <= page[0].updated
    {
      assert multiset(page)[s.comments[i]] == multiset(s.comments)[s.comments[i]] > 0;
      assert s.comments[i] in page;
    }
  }

  // ---------------------------------------------------------------------
  // Video search

  /** One YouTube search result; `statistics` holds the API's count strings. */
  datatype SearchResult = SearchResult(
    id: string,
    publishedAt: int,
    title: string,
    description: string,
    thumbnailDefault: string,
    thumbnailMedium: string,
    thumbnailHigh: string,
    statistics: map<string, string>)

  /** The YouTube ids of the videos already in the project. */
  function ExistingIds(s: Store, projectPk: Pk): (ids: set<string>)
    ensures forall k :: k in s.videos && s.videos[k].project == projectPk ==> s.videos[k].youtubeId in ids
    ensures forall id :: id in ids ==> exists k :: k in s.videos && s.videos[k].project == projectPk && s.videos[k].youtubeId == id
  {
    set k | k in s.videos && s.videos[k].project == projectPk :: s.videos[k].youtubeId
  }

  /**
   * The removal loop as it behaves: popping the examined element shifts its
   * successor into the current slot, and the enumeration then moves past
   * it, so the element right after each removed one is kept unexamined.
   */
  function SkipFilter(s: seq<SearchResult>, existing: set<string>): seq<SearchResult>
  {
    if s == [] then []
    else if s[0].id in existing then
      (if |s| == 1 then [] else [s[1]] + SkipFilter(s[2..], existing))
    else [s[0]] + SkipFilter(s[1..], existing)
  }

  /**
   * `for i, r in enumerate(results): if r['id'] in existing: results.pop(i)`.
   * The list's iterator and the enumeration counter advance together, so
   * one index `i` stands for both.
   */
  method RemoveExistingResults(results: seq<SearchResult>, existing: set<string>) returns (rs: seq<SearchResult>)
    ensures rs == SkipFilter(results, existing)
  {
    rs := results;
    var i := 0;
    while i < |rs|
      invariant 0 <= i <= |rs| + 1
      invariant i <= |rs| ==> SkipFilter(results, existing) == rs[..i] + SkipFilter(rs[i..], existing)
      invariant i == |rs| + 1 ==> SkipFilter(results, existing) == rs
      decreases |rs| + 1 - i
    {
      if rs[i].id in existing {
        PopStep(rs, i, existing);
        rs := rs[..i] + rs[i + 1..];
      } else {
        KeepStep(rs, i, existing);
      }
      i := i + 1;
    }
    if i <= |rs| {
      assert rs[i..] == [] && rs[..i] == rs;
    }
  }

  /** Popping the examined element keeps the loop's view of the result unchanged. */
  lemma PopStep(rs: seq<SearchResult>, i: nat, existing: set<string>)
    requires i < |rs| && rs[i].id in existing
    ensures var rs' := rs[..i] + rs[i + 1..];
            && (i + 1 <= |rs'| ==> rs'[..i + 1] + SkipFilter(rs'[i + 1..], existing) == rs[..i] + SkipFilter(rs[i..], existing))
            && (i + 1 > |rs'| ==> rs' == rs[..i] + SkipFilter(rs[i..], existing))
  {
    var rs' := rs[..i] + rs[i + 1..];
    var tail := rs[i..];
    assert tail[0] == rs[i];
    if i + 1 < |rs| {
      assert SkipFilter(tail, existing) == [tail[1]] + SkipFilter(tail[2..], existing);
      assert rs'[..i + 1] == rs[..i] + [tail[1]];
      assert rs'[i + 1..] == tail[2..];
    } else {
      assert SkipFilter(tail, existing) == [];
      assert rs' == rs[..i];
    }
  }

  /** Stepping past a kept element keeps the loop's view of the result unchanged. */
  lemma KeepStep(rs: seq<SearchResult>, i: nat, existing: set<string>)
    requires i < |rs| && rs[i].id !in existing
    ensures rs[..i + 1] + SkipFilter(rs[i + 1..], existing) == rs[..i] + SkipFilter(rs[i..], existing)
  {
    var tail := rs[i..];
    assert tail[0] == rs[i] && tail[1..] == rs[i + 1..];
    assert SkipFilter(tail, existing) == [rs[i]] + SkipFilter(rs[i + 1..], existing);
    assert rs[..i + 1] == rs[..i] + [rs[i]];
  }

  /** `a` is a subsequence of `b`: `b` with some elements deleted, order kept. */
  ghost predicate IsSubsequence<T>(a: seq<T>, b: seq<T>)
    decreases |b|
  {
    if a == [] then true
    else if b == [] then false
    else if a[0] == b[0] then IsSubsequence(a[1..], b[1..])
    else IsSubsequence(a, b[1..])
  }

  /** No result of the list is already in the project. */
  predicate NoneExisting(s: seq<SearchResult>, existing: set<string>)
  {
    forall i :: 0 <= i < |s| ==> s[i].id !in existing
  }

  /** No two neighbouring results are both already in the project. */
  predicate NoAdjacentExisting(s: seq<SearchResult>, existing: set<string>)
  {
    forall i :: 0 <= i < |s| - 1 ==> !(s[i].id in existing && s[i + 1].id in existing)
  }

  /** What the loop leaves is the original list with some elements deleted, in the same order. */
  lemma {:induction false} SkipFilterIsSubsequence(s: seq<SearchResult>, existing: set<string>)
    ensures IsSubsequence(SkipFilter(s, existing), s)
  {
    if s != [] {
      if s[0].id in existing {
        if |s| > 1 {
          SkipFilterIsSubsequence(s[2..], existing);
          var f := SkipFilter(s, existing);
          assert f[0] == s[1] && f[1..] == SkipFilter(s[2..], existing);
          if f[0] == s[0] {
            // s[0] and s[1] are equal: keep s[0] for s[1]; the rest is a subsequence of s[1..]
            SubsequenceOfTail(SkipFilter(s[2..], existing), s[1..]);
            assert s[1..][1..] == s[2..];
          } else {
            assert s[1..][0] == s[1] && s[1..][1..] == s[2..];
          }
        }
      } else {
        SkipFilterIsSubsequence(s[1..], existing);
        assert SkipFilter(s, existing)[1..] == SkipFilter(s[1..], existing);
      }
    }
  }

  /** A subsequence of a list's tail is a subsequence of the whole list. */
  lemma {:induction false} SubsequenceOfTail<T>(a: seq<T>, b: seq<T>)
    requires |b| > 0 && IsSubsequence(a, b[1..])
    ensures IsSubsequence(a, b)
    decreases |b|, |a|
  {
    if a != [] && a[0] == b[0] {
      // b[1..] contains all of a; drop a[0] from both
      SubsequenceDropHead(a, b[1..]);
    }
  }

  /** Dropping the head of a subsequence keeps it a subsequence. */
  lemma {:induction false} SubsequenceDropHead<T>(a: seq<T>, b: seq<T>)
    requires a != [] && IsSubsequence(a, b)
    ensures IsSubsequence(a[1..], b)
    decreases |b|, |a|
  {
    if b != [] {
      if a[0] == b[0] {
        if a[1..] != [] {
          SubsequenceOfTail(a[1..], b);
        }
      } else {
        SubsequenceDropHead(a, b[1..]);
        if a[1..] != [] {
          SubsequenceOfTail(a[1..], b);
        }
      }
    }
  }

  /** Every result not yet in the project survives the loop: filtering either list gives the same new results. */
  lemma {:induction false} SkipFilterKeepsNewResults(s: seq<SearchResult>, existing: set<string>)
    ensures DropExisting(SkipFilter(s, existing), existing) == DropExisting(s, existing)
  {
    if s != [] {
      if s[0].id in existing {
        if |s| > 1 {
          SkipFilterKeepsNewResults(s[2..], existing);
          var f := SkipFilter(s, existing);
          assert f[0] == s[1] && f[1..] == SkipFilter(s[2..], existing);
          assert s[1..][0] == s[1] && s[1..][1..] == s[2..];
        }
      } else {
        SkipFilterKeepsNewResults(s[1..], existing);
        assert SkipFilter(s, existing)[1..] == SkipFilter(s[1..], existing);
      }
    }
  }

  /**
   * The loop removes every already-added result exactly when no two
   * already-added results are neighbours in the search results.
   */
  lemma {:induction false} SkipFilterCleanIffNoAdjacent(s: seq<SearchResult>, existing: set<string>)
    ensures NoneExisting(SkipFilter(s, existing), existing) <==> NoAdjacentExisting(s, existing)
  {
    if s != [] {
      if s[0].id in existing {
        if |s| > 1 {
          SkipFilterCleanIffNoAdjacent(s[2..], existing);
          var f := SkipFilter(s, existing);
          assert f[0] == s[1] && f[1..] == SkipFilter(s[2..], existing);
          assert NoneExisting(f, existing) <==> s[1].id !in existing && NoneExisting(f[1..], existing) by {
            if NoneExisting(f, existing) {
              forall i | 0 <= i < |f[1..]| ensures f[1..][i].id !in existing { assert f[1..][i] == f[i + 1]; }
            }
            if s[1].id !in existing && NoneExisting(f[1..], existing) {
              forall i | 0 <= i < |f| ensures f[i].id !in existing { if i > 0 { assert f[i] == f[1..][i - 1]; } }
            }
          }
          assert NoAdjacentExisting(s, existing) <==> s[1].id !in existing && NoAdjacentExisting(s[2..], existing) by {
            if NoAdjacentExisting(s, existing) {
              forall i | 0 <= i < |s[2..]| - 1 ensures !(s[2..][i].id in existing && s[2..][i + 1].id in existing) {
                assert s[2..][i] == s[i + 2] && s[2..][i + 1] == s[i + 3];
              }
            }
            if s[1].id !in existing && NoAdjacentExisting(s[2..], existing) {
              forall i | 0 <= i < |s| - 1 ensures !(s[i].id in existing && s[i + 1].id in existing) {
                if i >= 2 { assert s[i] == s[2..][i - 2] && s[i + 1] == s[2..][i - 1]; }
              }
            }
          }
        }
      } else {
        SkipFilterCleanIffNoAdjacent(s[1..], existing);
        var f := SkipFilter(s, existing);
        assert f[0] == s[0] && f[1..] == SkipFilter(s[1..], existing);
        assert NoneExisting(f, existing) <==> NoneExisting(f[1..], existing) by {
          if NoneExisting(f, existing) {
            forall i | 0 <= i < |f[1..]| ensures f[1..][i].id !in existing { assert f[1..][i] == f[i + 1]; }
          }
          if NoneExisting(f[1..], existing) {
            forall i | 0 <= i < |f| ensures f[i].id !in existing { if i > 0 { assert f[i] == f[1..][i - 1]; } }
          }
        }
        assert NoAdjacentExisting(s, existing) <==> NoAdjacentExisting(s[1..], existing) by {
          if NoAdjacentExisting(s, existing) {
            forall i | 0 <= i < |s[1..]| - 1 ensures !(s[1..][i].id in existing && s[1..][i + 1].id in existing) {
              assert s[1..][i] == s[i + 1] && s[1..][i + 1] == s[i + 2];
            }
          }
          if NoAdjacentExisting(s[1..], existing) {
            forall i | 0 <= i < |s| - 1 ensures !(s[i].id in existing && s[i + 1].id in existing) {
              if i >= 1 { assert s[i] == s[1..][i - 1] && s[i + 1] == s[1..][i]; }
            }
          }
        }
      }
    }
  }

  /** Two neighbouring already-added results: the loop removes the first and keeps the second. */
  lemma AdjacentExistingResultSurvives(a: SearchResult, b: SearchResult, existing: set<string>)
    requires a.id in existing && b.id in existing
    ensures SkipFilter([a, b], existing) == [b]
    ensures !NoneExisting(SkipFilter([a, b], existing), existing)
  {
    assert [a, b][2..] == [];
    assert SkipFilter([a, b], existing)[0] == b;
  }

  /** The intended filter: keep exactly the results not yet in the project, in order. */
  function DropExisting(s: seq<SearchResult>, existing: set<string>): (r: seq<SearchResult>)
    ensures NoneExisting(r, existing)
    ensures forall x :: x in s && x.id !in existing ==> x in r
    ensures forall x :: x in r ==> x in s
  {
    if s == [] then []
    else if s[0].id in existing then DropExisting(s[1..], existing)
    else
      var rest := DropExisting(s[1..], existing);
      assert forall x :: x in s ==> x == s[0] || x in s[1..];
      [s[0]] + rest
  }

  /** The intended filter is a subsequence of the results, and agrees with the loop when no two already-added results are neighbours. */
  lemma {:induction false} DropExistingAgreesWithoutNeighbours(s: seq<SearchResult>, existing: set<string>)
    ensures IsSubsequence(DropExisting(s, existing), s)
    ensures NoAdjacentExisting(s, existing) ==> SkipFilter(s, existing) == DropExisting(s, existing)
  {
    if s != [] {
      DropExistingAgreesWithoutNeighbours(s[1..], existing);
      if s[0].id in existing {
        SubsequenceOfTail(DropExisting(s[1..], existing), s);
        if NoAdjacentExisting(s, existing) && |s| > 1 {
          assert s[1].id !in existing;
          assert NoAdjacentExisting(s[1..], existing) by {
            forall i | 0 <= i < |s[1..]| - 1 ensures !(s[1..][i].id in existing && s[1..][i + 1].id in existing) {
              assert s[1..][i] == s[i + 1] && s[1..][i + 1] == s[i + 2];
            }
          }
          assert s[1..][0] == s[1] && s[1..][1..] == s[2..];
          assert DropExisting(s[1..], existing) == [s[1]] + DropExisting(s[2..], existing);
          assert SkipFilter(s[1..], existing) == [s[1]] + SkipFilter(s[2..], existing);
        }
      } else {
        assert DropExisting(s, existing)[0] == s[0] && DropExisting(s, existing)[1..] == DropExisting(s[1..], existing);
        if NoAdjacentExisting(s, existing) {
          assert NoAdjacentExisting(s[1..], existing) by {
            forall i | 0 <= i < |s[1..]| - 1 ensures !(s[1..][i].id in existing && s[1..][i + 1].id in existing) {
              assert s[1..][i] == s[i + 1] && s[1..][i + 1] == s[i + 2];
            }
          }
        }
      }
    }
  }

  /** A count in the formset's initial data: the API's string, or 0 when the API omitted it. */
  datatype Count = FromApi(raw: string) | DefaultZero

  /** One initial row of the video formset. */
  datatype InitialRow = InitialRow(
    youtubeId: string,
    published: int,
    name: string,
    description: string,
    thumbnailDefault: string,
    thumbnailMedium: string,
    thumbnailHigh: string,
    likes: Count,
    dislikes: Count,
    commentCount: Count)

  /** `statistics.get(key, 0)`. */
  function CountOf(statistics: map<string, string>, key: string): (c: Count)
    ensures key !in statistics <==> c == DefaultZero
    ensures key in statistics ==> c == FromApi(statistics[key])
  {
    if key in statistics then FromApi(statistics[key]) else DefaultZero
  }

  /** The initial row for one search result. */
  function InitialFor(r: SearchResult): InitialRow
  {
    InitialRow(r.id, r.publishedAt, r.title, r.description, r.thumbnailDefault, r.thumbnailMedium,
               r.thumbnailHigh, CountOf(r.statistics, "likeCount"), CountOf(r.statistics, "dislikeCount"),
               CountOf(r.statistics, "commentCount"))
  }

  /** The formset's initial data: one row per remaining result, in order. */
  function FormsetInitial(results: seq<SearchResult>): (rows: seq<InitialRow>)
    ensures |rows| == |results|
    ensures forall i :: 0 <= i < |results| ==> rows[i].youtubeId == results[i].id && rows[i].name == results[i].title
    ensures forall i :: 0 <= i < |results| ==>
              && rows[i].published == results[i].publishedAt && rows[i].description == results[i].description
              && rows[i].thumbnailDefault == results[i].thumbnailDefault
              && rows[i].thumbnailMedium == results[i].thumbnailMedium
              && rows[i].thumbnailHigh == results[i].thumbnailHigh
    ensures forall i :: 0 <= i < |results| ==>
              && rows[i].likes == CountOf(results[i].statistics, "likeCount")
              && rows[i].dislikes == CountOf(results[i].statistics, "dislikeCount")
              && rows[i].commentCount == CountOf(results[i].statistics, "commentCount")
    ensures forall i :: 0 <= i < |results| ==>
              (rows[i].likes == DefaultZero <==> "likeCount" !in results[i].statistics)
              && (rows[i].dislikes == DefaultZero <==> "dislikeCount" !in results[i].statistics)
              && (rows[i].commentCount == DefaultZero <==> "commentCount" !in results[i].statistics)
  {
    seq(|results|, i requires 0 <= i < |results| => InitialFor(results[i]))
  }

  /**
   * `VideoSearchView.get_context_data`: None is the 404 of a project the
   * user does not own; otherwise the initial rows of the formset, built
   * from the results the removal loop leaves.
   */
  function SearchContext(s: Store, projects: Projects, user: UserId, projectPk: Pk, results: seq<SearchResult>)
    : (r: Option<seq<InitialRow>>)
    ensures r.None? <==> GetOwnedProject(projects, projectPk, user).None?
    ensures r.Some? ==> r.value == FormsetInitial(SkipFilter(results, ExistingIds(s, projectPk)))
    ensures r.Some? ==> |r.value| <= |results|
    ensures r.Some? ==> forall x :: x in results && x.id !in ExistingIds(s, projectPk) ==>
              exists i :: 0 <= i < |r.value| && r.value[i].youtubeId == x.id
    ensures r.Some? ==>
              ((forall i :: 0 <= i < |r.value| ==> r.value[i].youtubeId !in ExistingIds(s, projectPk))
               <==> NoAdjacentExisting(results, ExistingIds(s, projectPk)))
  {
    match GetOwnedProject(projects, projectPk, user)
    case None => None
    case Some(_) =>
      var existing := ExistingIds(s, projectPk);
      SkipFilterLength(results, existing);
      FormsetCoversNewResults(results, existing);
      FormsetCleanIffNoAdjacent(results, existing);
      Some(FormsetInitial(SkipFilter(results, existing)))
  }

  /** Every result not already in the project has a row in the formset. */
  lemma FormsetCoversNewResults(results: seq<SearchResult>, existing: set<string>)
    ensures var rows := FormsetInitial(SkipFilter(results, existing));
            forall x :: x in results && x.id !in existing ==> exists i :: 0 <= i < |rows| && rows[i].youtubeId == x.id
  {
    var kept := SkipFilter(results, existing);
    var rows := FormsetInitial(kept);
    SkipFilterKeepsNewResults(results, existing);
    forall x | x in results && x.id !in existing
      ensures exists i :: 0 <= i < |rows| && rows[i].youtubeId == x.id
    {
      assert x in DropExisting(kept, existing);
      var i :| 0 <= i < |kept| && kept[i] == x;
      assert rows[i].youtubeId == x.id;
    }
  }

  /** No row repeats a project video iff no two already-added results are adjacent. */
  lemma FormsetCleanIffNoAdjacent(results: seq<SearchResult>, existing: set<string>)
    ensures var rows := FormsetInitial(SkipFilter(results, existing));
            (forall i :: 0 <= i < |rows| ==> rows[i].youtubeId !in existing) <==> NoAdjacentExisting(results, existing)
  {
    var kept := SkipFilter(results, existing);
    var rows := FormsetInitial(kept);
    SkipFilterCleanIffNoAdjacent(results, existing);
    assert forall i :: 0 <= i < |rows| ==> rows[i].youtubeId == kept[i].id;
    if forall i :: 0 <= i < |rows| ==> rows[i].youtubeId !in existing {
      assert NoneExisting(kept, existing);
    } else {
      var i :| 0 <= i < |rows| && rows[i].youtubeId in existing;
      assert kept[i].id in existing;
      assert !NoneExisting(kept, existing);
    }
  }

  /** The filter never lengthens the results. */
  lemma {:induction false} SkipFilterLength(s: seq<SearchResult>, existing: set<string>)
    ensures |SkipFilter(s, existing)| <= |s|
  {
    if s != [] {
      if s[0].id in existing {
        if |s| > 1 {
          SkipFilterLength(s[2..], existing);
        }
      } else {
        SkipFilterLength(s[1..], existing);
      }
    }
  }

  /**
   * When no two already-added results are adjacent, the formset the view
   * builds is the one the intended filter would give.
   */
  lemma SearchContextAsIntendedWithoutNeighbours(s: Store, projects: Projects, user: UserId, projectPk: Pk,
                                                 results: seq<SearchResult>)
    requires NoAdjacentExisting(results, ExistingIds(s, projectPk))
    ensures var r := SearchContext(s, projects, user, projectPk, results);
            r.Some? ==> r.value == FormsetInitial(DropExisting(results, ExistingIds(s, projectPk)))
  {
    DropExistingAgreesWithoutNeighbours(results, ExistingIds(s, projectPk));
  }

  // ---------------------------------------------------------------------
  // Video add

  /** A cleaned form value. */
  datatype FieldValue = Text(text: string) | Number(n: int) | Timestamp(t: int) | Flag(b: bool)

  type CleanedData = map<string, FieldValue>

  /** Python truthiness of a cleaned value (a date-time is always truthy). */
  predicate FieldTruthy(v: FieldValue)
  {
    match v
    case Text(t) => t != ""
    case Number(n) => n != 0
    case Timestamp(_) => true
    case Flag(b) => b
  }

  /** `cleaned_data.get('add', None)` is truthy. */
  predicate Ticked(cd: CleanedData)
  {
    "add" in cd && FieldTruthy(cd["add"])
  }

  /** The keys `Video.objects.create` reads from the cleaned data, in the order it reads them. */
  const CreateKeys: seq<string> := ["youtube_id", "name", "published", "description",
                                    "thumbnail_default", "thumbnail_medium", "thumbnail_high",
                                    "likes", "dislikes", "comment_count"]

  /** A text field, when present, holds text. */
  predicate TextOrAbsent(cd: CleanedData, key: string)
  {
    key in cd ==> cd[key].Text?
  }

  /** A count field, when present, holds a non-negative number. */
  predicate CountOrAbsent(cd: CleanedData, key: string)
  {
    key in cd ==> cd[key].Number? && cd[key].n >= 0
  }

  /** What form cleaning guarantees about the values it produces for the keys read here. */
  predicate WellTyped(cd: CleanedData)
  {
    && TextOrAbsent(cd, "youtube_id") && TextOrAbsent(cd, "name") && TextOrAbsent(cd, "description")
    && TextOrAbsent(cd, "thumbnail_default") && TextOrAbsent(cd, "thumbnail_medium") && TextOrAbsent(cd, "thumbnail_high")
    && ("published" in cd ==> cd["published"].Timestamp?)
    && CountOrAbsent(cd, "likes") && CountOrAbsent(cd, "dislikes") && CountOrAbsent(cd, "comment_count")
  }

  /** Every form of the formset is well typed. */
  predicate AllWellTyped(forms: seq<CleanedData>)
  {
    forall i :: 0 <= i < |forms| ==> WellTyped(forms[i])
  }

  /** Every key the creation reads is present. */
  predicate Complete(cd: CleanedData)
  {
    forall i :: 0 <= i < |CreateKeys| ==> CreateKeys[i] in cd
  }

  /** The first key read that is missing (the KeyError the creation raises). */
  function FirstMissing(cd: CleanedData, i: nat): (r: Option<string>)
    requires i <= |CreateKeys|
    decreases |CreateKeys| - i
    ensures r.None? <==> forall j :: i <= j < |CreateKeys| ==> CreateKeys[j] in cd
    ensures r.Some? ==> r.value !in cd && r.value in CreateKeys[i..]
    ensures r.Some? ==> exists j :: i <= j < |CreateKeys| && CreateKeys[j] == r.value
                                  && forall m :: i <= m < j ==> CreateKeys[m] in cd
  {
    if i == |CreateKeys| then None
    else if CreateKeys[i] !in cd then Some(CreateKeys[i])
    else FirstMissing(cd, i + 1)
  }

  /** The Video fields read from complete, well-typed cleaned data. */
  function InfoFrom(cd: CleanedData): (info: VideoInfo)
    requires Complete(cd) && WellTyped(cd)
    ensures && "youtube_id" in cd && "name" in cd && "published" in cd && "description" in cd
            && "thumbnail_default" in cd && "thumbnail_medium" in cd && "thumbnail_high" in cd
            && "likes" in cd && "dislikes" in cd && "comment_count" in cd
    ensures info.youtubeId == cd["youtube_id"].text && info.name == cd["name"].text
    ensures info.description == cd["description"].text && info.published == cd["published"].t
    ensures info.thumbnailDefault == cd["thumbnail_default"].text
    ensures info.thumbnailMedium == cd["thumbnail_medium"].text
    ensures info.thumbnailHigh == cd["thumbnail_high"].text
    ensures info.likes == Some(cd["likes"].n as nat) && info.dislikes == Some(cd["dislikes"].n as nat)
    ensures info.commentCount == Some(cd["comment_count"].n as nat)
  {
    assert forall i :: 0 <= i < |CreateKeys| ==> CreateKeys[i] in cd;
    assert "youtube_id" == CreateKeys[0] && "name" == CreateKeys[1] && "published" == CreateKeys[2];
    assert "description" == CreateKeys[3] && "thumbnail_default" == CreateKeys[4];
    assert "thumbnail_medium" == CreateKeys[5] && "thumbnail_high" == CreateKeys[6];
    assert "likes" == CreateKeys[7] && "dislikes" == CreateKeys[8] && "comment_count" == CreateKeys[9];
    VideoInfo(cd["youtube_id"].text, cd["name"].text, cd["description"].text, cd["published"].t,
              cd["thumbnail_default"].text, cd["thumbnail_medium"].text, cd["thumbnail_high"].text,
              Some(cd["likes"].n as nat), Some(cd["dislikes"].n as nat), Some(cd["comment_count"].n as nat))
  }

  /** The view's response. */
  datatype Response = NotFound404 | RedirectToProject(pk: Pk) | KeyErrorRaised(key: string)

  datatype AddRun = AddRun(store: Store, deferred: seq<VideoSignals.Deferred>, response: Response)

  /** Every ticked form carries every key the creation reads. */
  predicate TickedComplete(forms: seq<CleanedData>)
  {
    forall i :: 0 <= i < |forms| && Ticked(forms[i]) ==> Complete(forms[i])
  }

  /**
   * The Videos the ticked forms describe, in form order: each built from its
   * form's cleaned data, owned by the user, in the project.
   */
  function TickedVideos(user: UserId, projectPk: Pk, forms: seq<CleanedData>): (r: seq<Video>)
    requires AllWellTyped(forms) && TickedComplete(forms)
    ensures forall v :: v in r ==> v.owner == user && v.project == projectPk
    ensures |r| <= |forms|
  {
    if forms == [] then []
    else
      assert AllWellTyped(forms[1..]) && TickedComplete(forms[1..]) by {
        forall i | 0 <= i < |forms[1..]| ensures forms[1..][i] == forms[i + 1] { }
      }
      if Ticked(forms[0]) then [NewVideo(user, projectPk, InfoFrom(forms[0]))] + TickedVideos(user, projectPk, forms[1..])
      else TickedVideos(user, projectPk, forms[1..])
  }

  /**
   * The loop over a valid formset: each ticked form creates one Video
   * owned by the user in the project (and so defers one comment import);
   * a ticked form missing a key raises, leaving the videos created before it.
   */
  function AddForms(s: Store, user: UserId, projectPk: Pk, forms: seq<CleanedData>): (r: AddRun)
    requires Valid(s)
    requires AllWellTyped(forms)
    ensures Valid(r.store) && r.store.comments == s.comments
    ensures r.response == RedirectToProject(projectPk) || r.response.KeyErrorRaised?
    ensures s.videos.Keys <= r.store.videos.Keys
    ensures forall k :: k in s.videos ==> r.store.videos[k] == s.videos[k]
    ensures forall k :: k in r.store.videos && k !in s.videos ==>
              r.store.videos[k].owner == user && r.store.videos[k].project == projectPk
    ensures |r.store.videos| == |s.videos| + |r.deferred|
    ensures forall i :: 0 <= i < |r.deferred| ==> r.deferred[i].pk in r.store.videos && r.deferred[i].pk !in s.videos
    ensures forall i, j :: 0 <= i < j < |r.deferred| ==> r.deferred[i].pk != r.deferred[j].pk
    decreases |forms|
  {
    if forms == [] then AddRun(s, [], RedirectToProject(projectPk))
    else
      var cd := forms[0];
      assert AllWellTyped(forms[1..]) by {
        forall i | 0 <= i < |forms[1..]| ensures WellTyped(forms[1..][i]) { assert forms[1..][i] == forms[i + 1]; }
      }
      if !Ticked(cd) then AddForms(s, user, projectPk, forms[1..])
      else match FirstMissing(cd, 0)
        case Some(key) => AddRun(s, [], KeyErrorRaised(key))
        case None =>
          var created := CreateVideo(s, user, projectPk, InfoFrom(cd));
          var rest := AddForms(created.store, user, projectPk, forms[1..]);
          assert |created.store.videos| == |s.videos| + 1;
          assert forall j :: 0 <= j < |rest.deferred| ==> rest.deferred[j].pk != created.pk;
          AddRun(rest.store, created.deferred + rest.deferred, rest.response)
  }

  /** Every deferred call of the add loop is the comment import, on its queue. */
  lemma {:induction false} AddFormsDefersCommentImports(s: Store, user: UserId, projectPk: Pk, forms: seq<CleanedData>)
    requires Valid(s) && AllWellTyped(forms)
    ensures forall d :: d in AddForms(s, user, projectPk, forms).deferred ==>
              d.task == VideoSignals.YoutubeImportComments && d.queue == VideoSignals.CommentImportQueue
    decreases |forms|
  {
    if forms != [] {
      assert AllWellTyped(forms[1..]) by {
        forall i | 0 <= i < |forms[1..]| ensures WellTyped(forms[1..][i]) { assert forms[1..][i] == forms[i + 1]; }
      }
      var cd := forms[0];
      if !Ticked(cd) {
        AddFormsDefersCommentImports(s, user, projectPk, forms[1..]);
      } else if FirstMissing(cd, 0).None? {
        var created := CreateVideo(s, user, projectPk, InfoFrom(cd));
        AddFormsDefersCommentImports(created.store, user, projectPk, forms[1..]);
      }
    }
  }

  /**
   * When every ticked form carries every key, the loop finishes with a
   * redirect and has created, in form order, one Video per ticked form,
   * built from that form's cleaned data (counts included).
   */
  lemma {:induction false} AddFormsCreatesTicked(s: Store, user: UserId, projectPk: Pk, forms: seq<CleanedData>)
    requires Valid(s) && AllWellTyped(forms) && TickedComplete(forms)
    ensures var r := AddForms(s, user, projectPk, forms);
            && r.response == RedirectToProject(projectPk)
            && CreatedInOrder(r.store.videos, r.deferred, TickedVideos(user, projectPk, forms))
    decreases |forms|
  {
    if forms != [] {
      assert AllWellTyped(forms[1..]) && TickedComplete(forms[1..]) by {
        forall i | 0 <= i < |forms[1..]| ensures forms[1..][i] == forms[i + 1] { }
      }
      var cd := forms[0];
      if !Ticked(cd) {
        AddFormsCreatesTicked(s, user, projectPk, forms[1..]);
      } else {
        var created := CreateVideo(s, user, projectPk, InfoFrom(cd));
        AddFormsCreatesTicked(created.store, user, projectPk, forms[1..]);
        AddFormsTickedStep(s, user, projectPk, forms);
        var rest := AddForms(created.store, user, projectPk, forms[1..]);
        assert forall i :: 0 <= i < |rest.deferred| ==> rest.deferred[i].pk != created.deferred[0].pk;
        CreatedInOrderPrepend(rest.store.videos, created.deferred[0], rest.deferred,
                              NewVideo(user, projectPk, InfoFrom(cd)), TickedVideos(user, projectPk, forms[1..]));
        assert created.deferred == [created.deferred[0]];
      }
    }
  }

  /**
   * The i-th deferred import is for a stored Video equal to the i-th of
   * `expected`, and no two imports are for the same Video.
   */
  predicate CreatedInOrder(videos: map<Pk, Video>, ds: seq<VideoSignals.Deferred>, expected: seq<Video>)
  {
    && |ds| == |expected|
    && (forall i :: 0 <= i < |ds| ==> ds[i].pk in videos && videos[ds[i].pk] == expected[i])
    && (forall i, j :: 0 <= i < j < |ds| ==> ds[i].pk != ds[j].pk)
  }

  lemma CreatedInOrderPrepend(videos: map<Pk, Video>, d: VideoSignals.Deferred, ds: seq<VideoSignals.Deferred>,
                              v: Video, expected: seq<Video>)
    requires d.pk in videos && videos[d.pk] == v
    requires forall i :: 0 <= i < |ds| ==> ds[i].pk != d.pk
    requires CreatedInOrder(videos, ds, expected)
    ensures CreatedInOrder(videos, [d] + ds, [v] + expected)
  {
    forall i | 0 <= i < |ds| + 1
      ensures ([d] + ds)[i].pk in videos && videos[([d] + ds)[i].pk] == ([v] + expected)[i]
    {
      if i > 0 {
        assert ([d] + ds)[i] == ds[i - 1] && ([v] + expected)[i] == expected[i - 1];
      }
    }
    forall i, j | 0 <= i < j < |ds| + 1 ensures ([d] + ds)[i].pk != ([d] + ds)[j].pk {
      assert ([d] + ds)[j] == ds[j - 1];
      if i > 0 {
        assert ([d] + ds)[i] == ds[i - 1];
      }
    }
  }

  /** One ticked, complete form: create its Video, then carry on with the rest. */
  lemma AddFormsTickedStep(s: Store, user: UserId, projectPk: Pk, forms: seq<CleanedData>)
    requires Valid(s) && AllWellTyped(forms) && TickedComplete(forms)
    requires forms != [] && Ticked(forms[0])
    ensures AllWellTyped(forms[1..]) && TickedComplete(forms[1..])
    ensures var created := CreateVideo(s, user, projectPk, InfoFrom(forms[0]));
            var rest := AddForms(created.store, user, projectPk, forms[1..]);
            var r := AddForms(s, user, projectPk, forms);
            && r == AddRun(rest.store, created.deferred + rest.deferred, rest.response)
            && TickedVideos(user, projectPk, forms)
               == [NewVideo(user, projectPk, InfoFrom(forms[0]))] + TickedVideos(user, projectPk, forms[1..])
            && r.store.videos[created.pk] == NewVideo(user, projectPk, InfoFrom(forms[0]))
  {
    assert AllWellTyped(forms[1..]) && TickedComplete(forms[1..]) by {
      forall i | 0 <= i < |forms[1..]| ensures forms[1..][i] == forms[i + 1] { }
    }
    assert Complete(forms[0]);
    assert FirstMissing(forms[0], 0).None?;
  }

  /**
   * `VideoAddView.post`.  A project the user does not own is a 404; an
   * invalid formset creates nothing; otherwise the ticked forms are added.
   * Apart from a KeyError, the response redirects to the project.
   */
  function VideoAdd(s: Store, projects: Projects, user: UserId, projectPk: Pk,
                    formsetValid: bool, forms: seq<CleanedData>): (r: AddRun)
    requires Valid(s)
    requires AllWellTyped(forms)
    ensures r.response == NotFound404 <==> GetOwnedProject(projects, projectPk, user).None?
    ensures r.response == NotFound404 || !formsetValid ==> r.store == s && r.deferred == []
    ensures GetOwnedProject(projects, projectPk, user).Some? && !formsetValid ==> r.response == RedirectToProject(projectPk)
    ensures |r.store.videos| == |s.videos| + |r.deferred|
    ensures forall i :: 0 <= i < |r.deferred| ==> r.deferred[i].pk in r.store.videos && r.deferred[i].pk !in s.videos
    ensures forall i, j :: 0 <= i < j < |r.deferred| ==> r.deferred[i].pk != r.deferred[j].pk
  {
    match GetOwnedProject(projects, projectPk, user)
    case None => AddRun(s, [], NotFound404)
    case Some(_) =>
      if !formsetValid then AddRun(s, [], RedirectToProject(projectPk))
      else AddForms(s, user, projectPk, forms)
  }

  /**
   * With a valid formset whose ticked forms carry every key, one Video is
   * created per ticked form, in form order, built from that form's cleaned
   * data (its counts included), each deferring its own comment import;
   * nothing else changes and the response redirects to the project.
   */
  lemma TickedFormsCreateVideos(s: Store, projects: Projects, user: UserId, projectPk: Pk, forms: seq<CleanedData>)
    requires Valid(s)
    requires AllWellTyped(forms)
    requires GetOwnedProject(projects, projectPk, user).Some?
    requires TickedComplete(forms)
    ensures var r := VideoAdd(s, projects, user, projectPk, true, forms);
            && r.response == RedirectToProject(projectPk)
            && |r.store.videos| == |s.videos| + |TickedVideos(user, projectPk, forms)|
            && CreatedInOrder(r.store.videos, r.deferred, TickedVideos(user, projectPk, forms))
            && (forall k :: k in s.videos ==> k in r.store.videos && r.store.videos[k] == s.videos[k])
  {
    AddFormsCreatesTicked(s, user, projectPk, forms);
  }

  /**
   * The fields `YouTubeVideoForm` declares.  A valid form's cleaned data
   * holds exactly these: it has no likes, dislikes or comment_count.
   */
  const VideoFormFields: set<string> := {"add", "youtube_id", "name", "description", "published",
                                         "thumbnail_default", "thumbnail_medium", "thumbnail_high"}

  /** The cleaned data of a valid `YouTubeVideoForm`. */
  predicate VideoFormCleaned(cd: CleanedData)
  {
    cd.Keys == VideoFormFields
  }

  /** Creating a Video from the video form's cleaned data fails at 'likes'. */
  lemma VideoFormLacksLikes(cd: CleanedData)
    requires VideoFormCleaned(cd)
    ensures FirstMissing(cd, 0) == Some("likes")
  {
    assert CreateKeys[7] == "likes" && "likes" !in cd;
    forall m | 0 <= m < 7 ensures CreateKeys[m] in cd {
      assert CreateKeys[m] in VideoFormFields;
    }
  }

  /**
   * The add loop over the video form as declared: every ticked form stops
   * the loop with KeyError('likes') before anything is created, so no
   * Video is ever created and nothing is deferred; the view redirects only
   * when no form is ticked.
   */
  lemma {:induction false} AddFormsRaisesAtFirstTicked(s: Store, user: UserId, projectPk: Pk, forms: seq<CleanedData>)
    requires Valid(s) && AllWellTyped(forms)
    requires forall i :: 0 <= i < |forms| ==> VideoFormCleaned(forms[i])
    ensures var r := AddForms(s, user, projectPk, forms);
            && r.store == s && r.deferred == []
            && (r.response == KeyErrorRaised("likes") <==> exists i :: 0 <= i < |forms| && Ticked(forms[i]))
            && (r.response == RedirectToProject(projectPk) <==> forall i :: 0 <= i < |forms| ==> !Ticked(forms[i]))
    decreases |forms|
  {
    if forms != [] {
      assert AllWellTyped(forms[1..]) by {
        forall i | 0 <= i < |forms[1..]| ensures WellTyped(forms[1..][i]) { assert forms[1..][i] == forms[i + 1]; }
      }
      if Ticked(forms[0]) {
        VideoFormLacksLikes(forms[0]);
      } else {
        assert forall i :: 0 <= i < |forms[1..]| ==> forms[1..][i] == forms[i + 1];
        AddFormsRaisesAtFirstTicked(s, user, projectPk, forms[1..]);
        assert (exists i :: 0 <= i < |forms| && Ticked(forms[i])) <==> (exists i :: 0 <= i < |forms[1..]| && Ticked(forms[1..][i])) by {
          if exists i :: 0 <= i < |forms| && Ticked(forms[i]) {
            var i :| 0 <= i < |forms| && Ticked(forms[i]);
            assert forms[1..][i - 1] == forms[i];
          }
        }
      }
    }
  }

  /**
   * The add view as written, for any valid formset of video forms: a
   * ticked form makes the view raise KeyError('likes'), and the store is
   * left as it was (the form declares no likes, dislikes or comment_count).
   */
  lemma TickedFormMissingKeyRaises(s: Store, projects: Projects, user: UserId, projectPk: Pk, forms: seq<CleanedData>)
    requires Valid(s) && AllWellTyped(forms)
    requires GetOwnedProject(projects, projectPk, user).Some?
    requires forall i :: 0 <= i < |forms| ==> VideoFormCleaned(forms[i])
    ensures var r := VideoAdd(s, projects, user, projectPk, true, forms);
            && r.store == s && r.deferred == []
            && (r.response == KeyErrorRaised("likes") <==> exists i :: 0 <= i < |forms| && Ticked(forms[i]))
  {
    AddFormsRaisesAtFirstTicked(s, user, projectPk, forms);
  }
}
