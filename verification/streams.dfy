/** The mock stream catalog of the analyze handler and its format and quality filters. */
module Streams {

  datatype Kind = Video | Audio
  datatype Container = Mp4 | Mp3

  /** One downloadable variant; `size` is a fixed placeholder in bytes. */
  datatype Stream = Stream(
    id: string, kind: Kind, container: Container, quality: string, hasAudio: bool, size: int)

  const MiB: int := 1024 * 1024

  /** The id tags of the six catalog entries, in order. */
  const Tags: seq<string> := ["360p", "720p", "1080p", "2160p", "mp3-128", "mp3-320"]

  /** The six records offered for platform `plat`: four mp4 videos, then two mp3 audios. */
  function Catalog(plat: string): (base: seq<Stream>)
    ensures |base| == 6
    ensures forall i :: 0 <= i < 6 ==> base[i].id == plat + "-" + Tags[i]
    ensures forall i :: 0 <= i < 4 ==> base[i].kind == Video && base[i].container == Mp4
    ensures forall i :: 4 <= i < 6 ==> base[i].kind == Audio && base[i].container == Mp3
    ensures forall i :: 0 <= i < 6 ==> base[i].hasAudio && base[i].size > 0 && base[i].size % MiB == 0
  {
    [
      Stream(plat + "-360p", Video, Mp4, "360p", true, 50 * MiB),
      Stream(plat + "-720p", Video, Mp4, "720p", true, 120 * MiB),
      Stream(plat + "-1080p", Video, Mp4, "1080p", true, 220 * MiB),
      Stream(plat + "-2160p", Video, Mp4, "2160p", true, 900 * MiB),
      Stream(plat + "-mp3-128", Audio, Mp3, "128 kbps", true, 10 * MiB),
      Stream(plat + "-mp3-320", Audio, Mp3, "320 kbps", true, 22 * MiB)
    ]
  }

  /** Every id starts with the platform and a dash, and no two ids are equal. */
  lemma CatalogIdsDistinct(plat: string)
    ensures forall i :: 0 <= i < 6 ==> plat + "-" <= Catalog(plat)[i].id
    ensures forall i, j :: 0 <= i < j < 6 ==> Catalog(plat)[i].id != Catalog(plat)[j].id
  {
    var base, pre := Catalog(plat), plat + "-";
    forall i | 0 <= i < 6 ensures pre <= base[i].id {
      assert base[i].id == pre + Tags[i];
    }
    forall i, j | 0 <= i < j < 6 ensures base[i].id != base[j].id {
      assert base[i].id[|pre|..] == Tags[i] && base[j].id[|pre|..] == Tags[j];
    }
  }

  /** No two catalog entries share a quality label. */
  lemma CatalogQualitiesDistinct(plat: string)
    ensures forall i, j :: 0 <= i < j < 6 ==> Catalog(plat)[i].quality != Catalog(plat)[j].quality
  {
  }

  // Order-preserving selection.

  /** `Array.prototype.filter`: the elements of `s` that satisfy `keep`, in order. */
  function Filter<T>(s: seq<T>, keep: T -> bool): (r: seq<T>)
    ensures |r| <= |s|
    ensures forall i :: 0 <= i < |r| ==> keep(r[i])
  {
    if s == [] then []
    else if keep(s[0]) then [s[0]] + Filter(s[1..], keep)
    else Filter(s[1..], keep)
  }

  /** `a` is `b` with some elements left out, the rest in their order. */
  predicate IsSubsequence<T(==)>(a: seq<T>, b: seq<T>)
    decreases |b|
  {
    if a == [] then true
    else if b == [] then false
    else if a[0] == b[0] then IsSubsequence(a[1..], b[1..])
    else IsSubsequence(a, b[1..])
  }

  lemma {:induction false} FilterIsSubsequence<T>(s: seq<T>, keep: T -> bool)
    ensures IsSubsequence(Filter(s, keep), s)
  {
    if s != [] {
      FilterIsSubsequence(s[1..], keep);
      if !keep(s[0]) {
        SubsequenceOfTail(Filter(s[1..], keep), s);
      }
    }
  }

  /** Filtering keeps exactly the elements that satisfy the predicate. */
  lemma {:induction false} FilterMembers<T>(s: seq<T>, keep: T -> bool, x: T)
    ensures x in Filter(s, keep) <==> x in s && keep(x)
  {
    if s != [] {
      FilterMembers(s[1..], keep, x);
      assert s == [s[0]] + s[1..];
    }
  }

  /** Filtering keeps every copy of a passing element and no copy of any other. */
  lemma {:induction false} FilterMultiset<T>(s: seq<T>, keep: T -> bool, x: T)
    ensures multiset(Filter(s, keep))[x] == if keep(x) then multiset(s)[x] else 0
  {
    if s != [] {
      FilterMultiset(s[1..], keep, x);
      assert s == [s[0]] + s[1..];
    }
  }

  lemma {:induction false} SubsequenceOfTail<T>(a: seq<T>, b: seq<T>)
    requires b != [] && IsSubsequence(a, b[1..])
    ensures IsSubsequence(a, b)
    decreases |b|, 0
  {
    if a != [] && a[0] == b[0] {
      SubsequenceDropFirst(a, b[1..]);
    }
  }

  lemma {:induction false} SubsequenceDropFirst<T>(a: seq<T>, b: seq<T>)
    requires a != [] && IsSubsequence(a, b)
    ensures IsSubsequence(a[1..], b)
    decreases |b|, 1
  {
    if a[0] != b[0] {
      SubsequenceDropFirst(a, b[1..]);
    }
    SubsequenceOfTail(a[1..], b);
  }

  lemma {:induction false} SubsequenceTransitive<T>(a: seq<T>, b: seq<T>, c: seq<T>)
    requires IsSubsequence(a, b) && IsSubsequence(b, c)
    ensures IsSubsequence(a, c)
    decreases |c|
  {
    if a != [] {
      assert b != [] && c != [];
      if b[0] == c[0] {
        if a[0] == b[0] {
          SubsequenceTransitive(a[1..], b[1..], c[1..]);
        } else {
          SubsequenceTransitive(a, b[1..], c[1..]);
          SubsequenceOfTail(a, c);
        }
      } else {
        SubsequenceTransitive(a, b, c[1..]);
        SubsequenceOfTail(a, c);
      }
    }
  }

  /** Every element of a subsequence is an element of the whole. */
  lemma {:induction false} SubsequenceMembers<T>(a: seq<T>, b: seq<T>, x: T)
    requires IsSubsequence(a, b) && x in a
    ensures x in b
    decreases |b|
  {
    if a[0] == b[0] {
      if x != a[0] {
        SubsequenceMembers(a[1..], b[1..], x);
      }
    } else {
      SubsequenceMembers(a, b[1..], x);
    }
  }

  /** No two records of `s` share an id. */
  predicate IdsDistinct(s: seq<Stream>) {
    forall i, j :: 0 <= i < j < |s| ==> s[i].id != s[j].id
  }

  /** Leaving records out of a sequence with distinct ids keeps the ids distinct. */
  lemma {:induction false} SubsequenceIdsDistinct(a: seq<Stream>, b: seq<Stream>)
    requires IsSubsequence(a, b) && IdsDistinct(b)
    ensures IdsDistinct(a)
    decreases |b|
  {
    if a != [] {
      assert IdsDistinct(b[1..]) by {
        forall i, j | 0 <= i < j < |b| - 1 ensures b[1..][i].id != b[1..][j].id {
          assert b[1..][i] == b[i + 1] && b[1..][j] == b[j + 1];
        }
      }
      if a[0] == b[0] {
        SubsequenceIdsDistinct(a[1..], b[1..]);
        forall j | 0 < j < |a| ensures a[0].id != a[j].id {
          assert a[j] in a[1..];
          SubsequenceMembers(a[1..], b[1..], a[j]);
          var k :| 0 <= k < |b[1..]| && b[1..][k] == a[j];
          assert b[k + 1] == a[j];
        }
      } else {
        SubsequenceIdsDistinct(a, b[1..]);
      }
    }
  }

  lemma {:induction false} SubsequenceReflexive<T>(a: seq<T>)
    ensures IsSubsequence(a, a)
  {
    if a != [] {
      SubsequenceReflexive(a[1..]);
    }
  }

  // The two filters of the analyze handler.

  /** The container the format step keeps: mp3 for "mp3", mp4 for any other value. */
  function WantedContainer(format: string): Container {
    if format == "mp3" then Mp3 else Mp4
  }

  /** The format step: applied unless `format` is "auto". */
  function FormatStep(base: seq<Stream>, format: string): seq<Stream> {
    if format != "auto" then Filter(base, (s: Stream) => s.container == WantedContainer(format)) else base
  }

  /** The quality step: applied unless `quality` is "best"; when it keeps nothing the result is `base`. */
  function QualityStep(streams: seq<Stream>, base: seq<Stream>, quality: string): seq<Stream> {
    if quality != "best" then
      var matching := Filter(streams, (s: Stream) => s.quality == quality);
      if |matching| == 0 then base else matching
    else streams
  }

  /** The `streams` of an analyze reply: the format step, then the quality step with its fallback. */
  function SelectStreams(base: seq<Stream>, format: string, quality: string): seq<Stream> {
    QualityStep(FormatStep(base, format), base, quality)
  }

  /**
   * The format step keeps, in order, exactly the records of `base` in the
   * wanted container, and is the identity for "auto".
   */
  lemma FormatStepSpec(base: seq<Stream>, format: string)
    ensures IsSubsequence(FormatStep(base, format), base)
    ensures format == "auto" ==> FormatStep(base, format) == base
    ensures format != "auto" ==> forall x ::
      x in FormatStep(base, format) <==> x in base && x.container == WantedContainer(format)
    ensures format != "auto" ==> forall x ::
      multiset(FormatStep(base, format))[x] == if x.container == WantedContainer(format) then multiset(base)[x] else 0
  {
    if format == "auto" {
      SubsequenceReflexive(base);
    } else {
      var keep := (s: Stream) => s.container == WantedContainer(format);
      FilterIsSubsequence(base, keep);
      forall x ensures x in FormatStep(base, format) <==> x in base && x.container == WantedContainer(format) {
        FilterMembers(base, keep, x);
      }
      forall x ensures multiset(FormatStep(base, format))[x] ==
        if x.container == WantedContainer(format) then multiset(base)[x] else 0
      {
        FilterMultiset(base, keep, x);
      }
    }
  }

  /**
   * The quality step: "best" keeps its input; otherwise the result is the
   * records with exactly the requested label, in order, when there is one,
   * and the whole of `base` when there is none.
   */
  lemma QualityStepSpec(streams: seq<Stream>, base: seq<Stream>, quality: string)
    ensures quality == "best" ==> QualityStep(streams, base, quality) == streams
    ensures quality != "best" && (forall x :: x in streams ==> x.quality != quality) ==>
      QualityStep(streams, base, quality) == base
    ensures quality != "best" && (exists x :: x in streams && x.quality == quality) ==>
      var r := QualityStep(streams, base, quality);
      && r != []
      && IsSubsequence(r, streams)
      && (forall x :: x in r <==> x in streams && x.quality == quality)
      && forall x :: multiset(r)[x] == if x.quality == quality then multiset(streams)[x] else 0
  {
    var keep := (s: Stream) => s.quality == quality;
    var matching := Filter(streams, keep);
    forall x ensures x in matching <==> x in streams && x.quality == quality {
      FilterMembers(streams, keep, x);
    }
    forall x ensures multiset(matching)[x] == if x.quality == quality then multiset(streams)[x] else 0 {
      FilterMultiset(streams, keep, x);
    }
    FilterIsSubsequence(streams, keep);
  }

  /** On the catalog the format step never comes out empty: both containers are present. */
  lemma FormatStepOfCatalog(plat: string, format: string)
    ensures FormatStep(Catalog(plat), format) != []
  {
    var base := Catalog(plat);
    FormatStepSpec(base, format);
    var x := if format == "mp3" then base[4] else base[0];
    assert x in base;
    assert x in FormatStep(base, format);
  }

  /** The selected streams are never empty and always an order-preserving part of the catalog. */
  lemma SelectStreamsNonEmptySubsequence(plat: string, format: string, quality: string)
    ensures SelectStreams(Catalog(plat), format, quality) != []
    ensures IsSubsequence(SelectStreams(Catalog(plat), format, quality), Catalog(plat))
  {
    var base := Catalog(plat);
    var formatted := FormatStep(base, format);
    FormatStepSpec(base, format);
    FormatStepOfCatalog(plat, format);
    QualityStepSpec(formatted, base, quality);
    SubsequenceReflexive(base);
    if quality != "best" && exists x :: x in formatted && x.quality == quality {
      SubsequenceTransitive(SelectStreams(base, format, quality), formatted, base);
    }
  }

  /** The format step on the catalog: the two mp3 records, or the four mp4 records. */
  lemma FormatStepOfCatalogExactly(plat: string, format: string)
    requires format != "auto"
    ensures FormatStep(Catalog(plat), format) ==
      if format == "mp3" then Catalog(plat)[4..] else Catalog(plat)[..4]
  {
    var base := Catalog(plat);
    var keep := (s: Stream) => s.container == WantedContainer(format);
    assert base == [base[0], base[1], base[2], base[3], base[4], base[5]];
    assert Filter(base[5..], keep) == if format == "mp3" then [base[5]] else [];
    assert base[4..][1..] == base[5..];
    assert Filter(base[4..], keep) == if format == "mp3" then [base[4], base[5]] else [];
    assert base[3..][1..] == base[4..];
    assert base[2..][1..] == base[3..];
    assert base[1..][1..] == base[2..];
    assert Filter(base[3..], keep) == if format == "mp3" then base[4..] else [base[3]];
    assert Filter(base[2..], keep) == if format == "mp3" then base[4..] else [base[2], base[3]];
    assert Filter(base[1..], keep) == if format == "mp3" then base[4..] else [base[1], base[2], base[3]];
  }

  /** `format=mp3` alone gives exactly the two mp3 records. */
  lemma SelectMp3(plat: string)
    ensures SelectStreams(Catalog(plat), "mp3", "best") == Catalog(plat)[4..]
  {
    FormatStepOfCatalogExactly(plat, "mp3");
  }

  /** `format=mp4&quality=720p` gives exactly the 720p video. */
  lemma SelectMp4At720p(plat: string)
    ensures SelectStreams(Catalog(plat), "mp4", "720p") == [Catalog(plat)[1]]
  {
    var base := Catalog(plat);
    FormatStepOfCatalogExactly(plat, "mp4");
    var videos := base[..4];
    var keep := (s: Stream) => s.quality == "720p";
    assert videos[1..][1..] == videos[2..] && videos[2..][1..] == videos[3..] && videos[3..][1..] == [];
    assert Filter(videos[3..], keep) == [];
    assert Filter(videos[2..], keep) == [];
    assert Filter(videos[1..], keep) == [base[1]];
  }

  /**
   * An unknown quality label falls back to the whole catalog, whatever the
   * format: the fallback also drops the format filter, so `format=mp3` with a
   * video label or an unknown label yields the mp4 records too.
   */
  lemma SelectFallsBackToCatalog(plat: string, format: string, quality: string)
    requires quality != "best"
    requires forall i :: 0 <= i < 6 ==> Catalog(plat)[i].quality != quality
    ensures SelectStreams(Catalog(plat), format, quality) == Catalog(plat)
  {
    var base := Catalog(plat);
    FormatStepSpec(base, format);
    QualityStepSpec(FormatStep(base, format), base, quality);
  }

  /** The two fallback cases spelled out. */
  lemma SelectFallbackExamples(plat: string)
    ensures SelectStreams(Catalog(plat), "auto", "9999p") == Catalog(plat)
    ensures SelectStreams(Catalog(plat), "mp3", "9999p") == Catalog(plat)
    ensures SelectStreams(Catalog(plat), "mp3", "720p") == Catalog(plat)
  {
    SelectFallsBackToCatalog(plat, "auto", "9999p");
    SelectFallsBackToCatalog(plat, "mp3", "9999p");
    FormatStepOfCatalogExactly(plat, "mp3");
    var base := Catalog(plat);
    QualityStepSpec(base[4..], base, "720p");
  }
}
