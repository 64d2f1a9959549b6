/**
 * The picture album: decks of picture URLs kept in a multimap from deck
 * name to URLs, and the URL most recently sent, if any.
 */
module AlbumStore {
  import opened Wrappers
  import opened MultiMaps
  import opened StrOps

  const Host: string := "http://example.com/"
  const Mood1: string := "http://example.com/mood1.png"
  const Mood2: string := "http://example.com/mood2.png"
  const Mood3: string := "http://example.com/mood3.png"
  const Tata: string := "http://example.com/tata.png"
  const Riri1: string := "http://example.com/riri1.png"
  const Riri2: string := "http://example.com/riri2.png"

  /** The decks the default album is seeded with. */
  function SeedPictures(): MultiMap {
    map["mood" := [Mood1, Mood2, Mood3], "tata" := [Tata], "riri" := [Riri1, Riri2]]
  }

  class Album {
    var pictures: MultiMap
    var lastSent: Option<string>

    /** `Album::new()`: no deck and nothing sent. */
    constructor ()
      ensures pictures == map[] && lastSent == None
      ensures DeckCount() == 0 && PictureCount() == 0
      ensures NoEmptyList(pictures)
    {
      pictures := map[];
      lastSent := None;
    }

    /** `Album::default()`: six pictures inserted into three decks, one of them remembered as sent. */
    static method Default() returns (album: Album)
      ensures fresh(album)
      ensures album.pictures == SeedInserts() == SeedPictures()
      ensures album.lastSent == Some(Riri1)
      ensures NoEmptyList(album.pictures)
    {
      album := new Album();
      album.pictures := Insert(album.pictures, "mood", Mood1);
      album.pictures := Insert(album.pictures, "mood", Mood2);
      album.pictures := Insert(album.pictures, "mood", Mood3);
      album.pictures := Insert(album.pictures, "tata", Tata);
      album.pictures := Insert(album.pictures, "riri", Riri1);
      album.pictures := Insert(album.pictures, "riri", Riri2);
      album.lastSent := Some(Riri1);
      assert SeedInserts() == SeedPictures() by { SeedIsSixInserts(); }
      SeedDecksNonEmpty();
    }

    /**
     * `add_picture(deck_name, url)` as `picture_add` calls it: `url` goes at the
     * end of the deck `deckName`, which is created if absent.
     */
    method AddPicture(deckName: string, url: string)
      modifies this
      ensures pictures == Insert(old(pictures), deckName, url)
      ensures lastSent == old(lastSent)
      ensures NoEmptyList(old(pictures)) ==> NoEmptyList(pictures)
    {
      if NoEmptyList(pictures) {
        InsertKeepsListsNonEmpty(pictures, deckName, url);
      }
      pictures := Insert(pictures, deckName, url);
    }

    /** The injected random index `n` is one `gen_range(0..len)` can yield for the deck. */
    predicate DrawableIndex(deckName: string, n: nat)
      reads this
    {
      deckName in pictures && |pictures[deckName]| > 0 ==> n < |pictures[deckName]|
    }

    /**
     * `get_rand_pic(deck_name)`: the picture at the random index `n` of the
     * deck whose name is exactly `deckName`, or none when there is no such
     * deck or it is empty.
     */
    function GetRandPic(deckName: string, n: nat): (r: Option<string>)
      reads this
      requires DrawableIndex(deckName, n)
      ensures r.None? <==> deckName !in pictures || pictures[deckName] == []
      ensures r.Some? ==> r.value in pictures[deckName]
    {
      if deckName in pictures && |pictures[deckName]| > 0 then Some(pictures[deckName][n]) else None
    }

    /** `deck_count()`: the number of deck names. */
    function DeckCount(): (r: nat)
      reads this
      ensures r == 0 <==> pictures == map[]
    {
      |pictures|
    }

    /** `picture_count()`: the number of pictures over all decks. */
    ghost function PictureCount(): (r: nat)
      reads this
      ensures NoEmptyList(pictures) ==> r >= DeckCount()
    {
      TotalLenAtLeastKeys(pictures);
      TotalLen(pictures)
    }
  }

  /** The decks `Album::default()` builds, as the six `pictures.insert` calls it makes. */
  function SeedInserts(): MultiMap {
    Insert(Insert(Insert(Insert(Insert(Insert(map[],
        "mood", Mood1), "mood", Mood2), "mood", Mood3), "tata", Tata), "riri", Riri1), "riri", Riri2)
  }

  /** No seed deck is empty. */
  lemma SeedDecksNonEmpty()
    ensures NoEmptyList(SeedPictures())
  {
  }

  /** The six inserts of `Album::default()` build exactly the seed decks. */
  lemma SeedIsSixInserts()
    ensures SeedInserts() == SeedPictures()
  {
    var mood1 := map["mood" := [Mood1]];
    var mood2 := map["mood" := [Mood1, Mood2]];
    var mood3 := map["mood" := [Mood1, Mood2, Mood3]];
    var tata := mood3["tata" := [Tata]];
    var riri1 := tata["riri" := [Riri1]];
    InsertStep(map[], "mood", Mood1, [Mood1]);
    InsertStep(mood1, "mood", Mood2, [Mood1, Mood2]);
    InsertStep(mood2, "mood", Mood3, [Mood1, Mood2, Mood3]);
    InsertStep(mood3, "tata", Tata, [Tata]);
    InsertStep(tata, "riri", Riri1, [Riri1]);
    InsertStep(riri1, "riri", Riri2, [Riri1, Riri2]);
  }

  lemma InsertStep(m: MultiMap, key: string, value: string, values: seq<string>)
    requires ValuesOf(m, key) + [value] == values
    ensures Insert(m, key, value) == m[key := values]
  {
  }

  /** Every picture of a deck is drawn for some index the random source can yield. */
  lemma EveryPictureDrawable(album: Album, deckName: string, url: string)
    requires deckName in album.pictures && url in album.pictures[deckName]
    ensures exists n: nat :: album.DrawableIndex(deckName, n) && album.GetRandPic(deckName, n) == Some(url)
  {
    var deck := album.pictures[deckName];
    var n :| 0 <= n < |deck| && deck[n] == url;
    assert album.GetRandPic(deckName, n) == Some(url);
  }

  /** The seeded album has three decks holding six pictures. */
  lemma SeedCounts()
    ensures |SeedPictures()| == 3
    ensures TotalLen(SeedPictures()) == 6
  {
    SeedIsSixInserts();
    var m0: MultiMap := map[];
    var m1 := Insert(m0, "mood", Mood1);
    var m2 := Insert(m1, "mood", Mood2);
    var m3 := Insert(m2, "mood", Mood3);
    var m4 := Insert(m3, "tata", Tata);
    var m5 := Insert(m4, "riri", Riri1);
    InsertTotalLen(m0, "mood", Mood1);
    InsertTotalLen(m1, "mood", Mood2);
    InsertTotalLen(m2, "mood", Mood3);
    InsertTotalLen(m3, "tata", Tata);
    InsertTotalLen(m4, "riri", Riri1);
    InsertTotalLen(m5, "riri", Riri2);
    InsertKeyCount(m0, "mood", Mood1);
    InsertKeyCount(m1, "mood", Mood2);
    InsertKeyCount(m2, "mood", Mood3);
    InsertKeyCount(m3, "tata", Tata);
    InsertKeyCount(m4, "riri", Riri1);
    InsertKeyCount(m5, "riri", Riri2);
  }

  /** A lookup under a name that is not a seeded deck finds nothing. */
  lemma SeedNoMatch(album: Album, n: nat)
    requires album.pictures == SeedPictures()
    ensures album.DrawableIndex("not_matching_key", n)
    ensures album.GetRandPic("not_matching_key", n) == None
  {
  }

  /** Every seeded URL carries its deck's name right after the host part. */
  lemma SeedUrlNamesDeck(deckName: string, n: nat)
    requires deckName in SeedPictures() && n < |SeedPictures()[deckName]|
    ensures OccursAt(SeedPictures()[deckName][n], deckName, |Host|)
  {
    var url := SeedPictures()[deckName][n];
    if deckName == "mood" {
      assert url == [Mood1, Mood2, Mood3][n];
      assert Mood1[19..23] == Mood2[19..23] == Mood3[19..23] == "mood";
    } else if deckName == "tata" {
      assert url == Tata;
      assert Tata[19..23] == "tata";
    } else {
      assert url == [Riri1, Riri2][n];
      assert Riri1[19..23] == Riri2[19..23] == "riri";
    }
  }

  /** Each seeded deck yields a picture whose URL contains the deck's name. */
  lemma SeedDrawMatchesDeck(album: Album, deckName: string, n: nat)
    requires album.pictures == SeedPictures()
    requires deckName in SeedPictures() && n < |SeedPictures()[deckName]|
    ensures album.GetRandPic(deckName, n).Some?
    ensures Contains(album.GetRandPic(deckName, n).value, deckName)
  {
    SeedUrlNamesDeck(deckName, n);
    assert album.GetRandPic(deckName, n) == Some(SeedPictures()[deckName][n]);
  }
}
