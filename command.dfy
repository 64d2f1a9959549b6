/**
 * The command handlers of the bot, reduced to what they decide: which
 * words of a message they read, what they do to the album and what they
 * reply. Sending the reply and the guild's member list come from the chat
 * platform and stay outside the model.
 */
module Commands {
  import opened Wrappers
  import opened StrOps
  import opened StrOrder
  import opened MultiMaps
  import opened AlbumStore

  const NothingToAddReply: string := "Je n'ai rien trouv\U{E9} en pi\U{E8}ce jointe a ajouter."
  const NothingDeletedReply: string := "Je n'ai rien supprim\U{E9}."
  const PictureDeletedReply: string := "J'ai supprim\U{E9} l'image !"

  /** The reply of `picture_add` after adding `count` pictures. */
  function AddedReply(count: nat): string {
    "J'ai ajout\U{E9} " + NatToString(count) + " image\U{B7}s !"
  }

  /**
   * The words of a command: `content.split(' ')`. This name exists only to
   * read as the command's words; it is `StrOps.Split` at a space.
   */
  function Tokens(content: string): seq<string> {
    Split(content, ' ')
  }

  /** Every word after the first starts right after a space: the arguments follow the command name. */
  lemma ArgumentsFollowFirstSpace(content: string)
    requires |Tokens(content)| >= 2
    ensures ' ' !in Tokens(content)[0]
    ensures content == Tokens(content)[0] + " " + Join(Tokens(content)[1..], " ")
  {
    SplitPiecesFree(content, ' ');
    JoinSplit(content, ' ');
    JoinFront(Tokens(content), " ");
  }

  /** A message has a second word exactly when it holds a space, and a third exactly when it holds two. */
  lemma TokenCount(content: string)
    ensures |Tokens(content)| >= 2 <==> ' ' in content
    ensures |Tokens(content)| >= 3 <==> multiset(content)[' '] >= 2
  {
    SplitCount(content, ' ');
  }

  /**
   * `picture_find_and_send`: a message starting with `!` asks for a random
   * picture of the deck named by the rest of the message; `n` is the
   * random index drawn for that deck.
   */
  function PictureFindAndSend(album: Album, content: string, n: nat): (link: Option<string>)
    reads album
    requires StripPrefix(content, "!").Some? ==> album.DrawableIndex(StripPrefix(content, "!").value, n)
    ensures !StartsWith(content, "!") ==> link.None?
    ensures link.Some? ==> content[1..] in album.pictures && link.value in album.pictures[content[1..]]
    ensures StartsWith(content, "!") && content[1..] in album.pictures && album.pictures[content[1..]] != []
      ==> link.Some?
  {
    match StripPrefix(content, "!")
    case Some(deckName) => album.GetRandPic(deckName, n)
    case None => None
  }

  /** What follows the first of `words` once they are joined by spaces: nothing, or a space and the rest. */
  function Remainder(words: seq<string>): string
    requires |words| >= 1
  {
    if |words| == 1 then "" else " " + Join(words[1..], " ")
  }

  lemma JoinFirstWord(words: seq<string>)
    requires |words| >= 1
    ensures Join(words, " ") == words[0] + Remainder(words)
  {
    if |words| >= 2 {
      JoinFront(words, " ");
    }
  }

  /**
   * The deck `picture_add` adds to: the second word, if there is one. The
   * message is then a first word, a space, the deck name, and either
   * nothing or a space and whatever follows.
   */
  function AddDeckName(content: string): (deckName: Option<string>)
    ensures deckName.Some? <==> ' ' in content
    ensures deckName.Some? ==> ' ' !in deckName.value
    ensures deckName.Some? ==> exists w, rest {:trigger w + " " + deckName.value + rest} ::
      && content == w + " " + deckName.value + rest
      && ' ' !in w
      && (rest == "" || rest[0] == ' ')
  {
    TokenCount(content);
    SplitPiecesFree(content, ' ');
    var tokens := Tokens(content);
    if |tokens| >= 2 then
      SecondWordLayout(content);
      var rest := Remainder(tokens[1..]);
      assert ' ' !in tokens[0] && (rest == "" || rest[0] == ' ');
      assert content == tokens[0] + " " + tokens[1] + rest;
      Some(tokens[1])
    else None
  }

  /** The message laid out around its second word. */
  lemma SecondWordLayout(content: string)
    requires |Tokens(content)| >= 2
    ensures var tokens := Tokens(content);
      content == tokens[0] + " " + tokens[1] + Remainder(tokens[1..])
  {
    var tokens := Tokens(content);
    ArgumentsFollowFirstSpace(content);
    JoinFirstWord(tokens[1..]);
    var rest := Remainder(tokens[1..]);
    assert content == tokens[0] + " " + (tokens[1] + rest);
    assert tokens[0] + " " + (tokens[1] + rest) == tokens[0] + " " + tokens[1] + rest;
  }

  /**
   * `picture_add`: adds the URL of every attachment, in order, to the deck
   * named by the second word, and says how many it added; with no second
   * word it adds nothing.
   */
  method PictureAdd(album: Album, content: string, attachments: seq<string>)
    returns (numAdded: nat, response: string)
    modifies album
    ensures AddDeckName(content).Some? ==>
      album.pictures == InsertAll(old(album.pictures), AddDeckName(content).value, attachments)
      && numAdded == |attachments|
    ensures AddDeckName(content).None? ==> album.pictures == old(album.pictures) && numAdded == 0
    ensures album.lastSent == old(album.lastSent)
    ensures NoEmptyList(old(album.pictures)) ==> NoEmptyList(album.pictures)
    ensures response == if numAdded > 0 then AddedReply(numAdded) else NothingToAddReply
  {
    numAdded := 0;
    response := NothingToAddReply;
    var deckName := AddDeckName(content);
    if deckName.Some? {
      for i := 0 to |attachments|
        invariant album.pictures == InsertAll(old(album.pictures), deckName.value, attachments[..i])
        invariant album.lastSent == old(album.lastSent)
        invariant NoEmptyList(old(album.pictures)) ==> NoEmptyList(album.pictures)
        invariant numAdded == i
      {
        album.AddPicture(deckName.value, attachments[i]);
        assert attachments[..i + 1][..i] == attachments[..i];
        numAdded := numAdded + 1;
      }
      assert attachments[..|attachments|] == attachments;
    }
    if numAdded > 0 {
      response := AddedReply(numAdded);
    }
  }

  /** An add puts every attachment at the end of the named deck and grows the picture count by their number. */
  lemma PictureAddEffect(pictures: MultiMap, content: string, attachments: seq<string>)
    requires AddDeckName(content).Some? && |attachments| > 0
    ensures var deckName := AddDeckName(content).value;
      var after := InsertAll(pictures, deckName, attachments);
      after == pictures[deckName := ValuesOf(pictures, deckName) + attachments]
      && TotalLen(after) == TotalLen(pictures) + |attachments|
  {
    var deckName := AddDeckName(content).value;
    InsertAllAppends(pictures, deckName, attachments);
    InsertAllTotalLen(pictures, deckName, attachments);
  }

  /**
   * The deck and URL `delete_picture` passes on: the second and third
   * words, if there are both. The message is then a first word, a space,
   * the deck, a space, the URL, and either nothing or a space and whatever
   * follows.
   */
  function DeleteRequest(content: string): (request: Option<(string, string)>)
    ensures request.Some? <==> multiset(content)[' '] >= 2
    ensures request.Some? ==> ' ' !in request.value.0 && ' ' !in request.value.1
    ensures request.Some? ==> exists w, rest {:trigger w + " " + request.value.0 + " " + request.value.1 + rest} ::
      && content == w + " " + request.value.0 + " " + request.value.1 + rest
      && ' ' !in w
      && (rest == "" || rest[0] == ' ')
  {
    TokenCount(content);
    SplitPiecesFree(content, ' ');
    var tokens := Tokens(content);
    if |tokens| >= 3 then
      ThirdWordLayout(content);
      Some((tokens[1], tokens[2]))
    else None
  }

  /** The message laid out around its second and third words. */
  lemma ThirdWordLayout(content: string)
    requires |Tokens(content)| >= 3
    ensures var tokens := Tokens(content);
      content == tokens[0] + " " + tokens[1] + " " + tokens[2] + Remainder(tokens[2..])
  {
    var tokens := Tokens(content);
    SecondWordLayout(content);
    assert tokens[1..][1..] == tokens[2..];
    JoinFirstWord(tokens[2..]);
    var rest := Remainder(tokens[2..]);
    assert Remainder(tokens[1..]) == " " + (tokens[2] + rest);
    assert tokens[0] + " " + tokens[1] + (" " + (tokens[2] + rest))
      == tokens[0] + " " + tokens[1] + " " + tokens[2] + rest;
  }

  /**
   * `delete_picture`: asks the album to remove the picture only when the
   * message names a deck and a URL; `removePicture` stands for the album's
   * answer. Returns whether something was removed, and the reply.
   */
  function DeletePicture(content: string, removePicture: (string, string) -> bool): (out: (bool, string))
    ensures out.0 <==> DeleteRequest(content).Some? && removePicture(DeleteRequest(content).value.0, DeleteRequest(content).value.1)
    ensures multiset(content)[' '] < 2 ==> !out.0
    ensures out.1 == if out.0 then PictureDeletedReply else NothingDeletedReply
  {
    var removed :=
      match DeleteRequest(content)
      case Some((deckName, url)) => removePicture(deckName, url)
      case None => false;
    (removed, if removed then PictureDeletedReply else NothingDeletedReply)
  }

  /** A guild member as `reset_nick` sees it. */
  datatype GuildMember = GuildMember(userId: nat, name: string, discriminator: nat, nick: Option<string>)

  /**
   * The nicknames `reset_nick` resets: every word after the first. The
   * message is the first word, a space, and these words joined by spaces.
   */
  function NicksToReset(content: string): (nicks: seq<string>)
    ensures |nicks| == multiset(content)[' ']
    ensures forall i :: 0 <= i < |nicks| ==> ' ' !in nicks[i]
    ensures ' ' in content ==> exists w {:trigger w + " " + Join(nicks, " ")} :: content == w + " " + Join(nicks, " ") && ' ' !in w
  {
    SplitCount(content, ' ');
    SplitPiecesFree(content, ' ');
    TokenCount(content);
    if ' ' in content then
      ArgumentsFollowFirstSpace(content);
      Tokens(content)[1..]
    else
      Tokens(content)[1..]
  }

  predicate HasNickIn(member: GuildMember, toReset: seq<string>) {
    member.nick.Some? && member.nick.value in toReset
  }

  /** `reset_nick`'s filter: the members, in order, whose nickname is one of `toReset`. */
  function MembersToReset(members: seq<GuildMember>, toReset: seq<string>): (r: seq<GuildMember>)
    ensures |r| <= |members|
    ensures forall i :: 0 <= i < |r| ==> r[i] in members && HasNickIn(r[i], toReset)
    ensures forall i :: 0 <= i < |members| && HasNickIn(members[i], toReset) ==> members[i] in r
    decreases |members|
  {
    if |members| == 0 then []
    else
      var rest := MembersToReset(members[1..], toReset);
      assert forall i :: 0 < i < |members| ==> members[i] == members[1..][i - 1];
      if HasNickIn(members[0], toReset) then [members[0]] + rest else rest
  }

  /** A member without a nickname is never reset. */
  lemma NoNickNeverReset(members: seq<GuildMember>, toReset: seq<string>, member: GuildMember)
    requires member.nick.None?
    ensures member !in MembersToReset(members, toReset)
  {
  }

  /**
   * `mk_names_str`: the deck names in ascending order, separated by
   * `", "`. The loop puts the separator before every name but the first.
   */
  method MkNamesStr(deckNames: seq<string>) returns (namesStr: string)
    ensures namesStr == Join(SortNames(deckNames), ", ")
  {
    var names := SortNames(deckNames);
    namesStr := "";
    var first := true;
    for i := 0 to |names|
      invariant first <==> i == 0
      invariant namesStr == Join(names[..i], ", ")
    {
      if first {
        first := false;
      } else {
        namesStr := namesStr + ", ";
      }
      namesStr := namesStr + names[i];
      assert names[..i + 1][..i] == names[..i];
    }
    assert names[..|names|] == names;
  }

  /** The list of no deck is empty, and the list of one deck is its name. */
  lemma NamesStrSmall(deckNames: seq<string>)
    requires |deckNames| <= 1
    ensures |deckNames| == 0 ==> Join(SortNames(deckNames), ", ") == ""
    ensures |deckNames| == 1 ==> Join(SortNames(deckNames), ", ") == deckNames[0]
  {
    if |deckNames| == 1 {
      var sorted := SortNames(deckNames);
      assert deckNames[0] in multiset(sorted);
    }
  }

  /** Whichever correct sort puts the names in order, the list is the same. */
  lemma NamesStrSortIndependent(deckNames: seq<string>, sorted: seq<string>)
    requires Sorted(sorted) && multiset(sorted) == multiset(deckNames)
    ensures Join(SortNames(deckNames), ", ") == Join(sorted, ", ")
  {
    SortedPermutationUnique(SortNames(deckNames), sorted);
  }

  /** The list starts with the smallest name and ends with the largest. */
  lemma NamesStrEnds(deckNames: seq<string>)
    requires |deckNames| >= 1
    ensures var sorted := SortNames(deckNames);
      && sorted[0] <= Join(sorted, ", ")
      && forall name :: name in deckNames ==> Leq(sorted[0], name) && Leq(name, sorted[|sorted| - 1])
  {
    var sorted := SortNames(deckNames);
    assert |sorted| == |multiset(deckNames)| == |deckNames|;
    SortedEnds(sorted);
    forall name | name in deckNames ensures name in sorted {
      assert name in multiset(deckNames);
    }
    JoinEnds(sorted, ", ");
  }
}
