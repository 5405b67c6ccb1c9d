/**
 * Tracker lists. qBittorrent's are edited by an add request and a remove request, each carrying
 * its URLs joined into one string; Deluge's are rewritten whole, in tiers.
 *
 * The server side of qBittorrent is modelled by its Web API: it splits the string at the
 * separator, adds what it does not already list, and removes what it lists.
 */
module Trackers {
  import opened Basics

  // ----- joined lists

  function Join(urls: seq<string>, sep: char): string {
    if urls == [] then []
    else if |urls| == 1 then urls[0]
    else urls[0] + [sep] + Join(urls[1..], sep)
  }

  /** `urls` with `head` in front of its first element. */
  function Prepend(head: char, urls: seq<string>): (r: seq<string>)
    requires urls != []
    ensures |r| == |urls|
  {
    [[head] + urls[0]] + urls[1..]
  }

  function Split(s: string, sep: char): (r: seq<string>)
    ensures r != []
    ensures forall u :: u in r ==> sep !in u
  {
    if s == [] then [[]]
    else if s[0] == sep then [[]] + Split(s[1..], sep)
    else Prepend(s[0], Split(s[1..], sep))
  }

  lemma {:induction false} SplitWord(word: string, sep: char)
    requires sep !in word
    ensures Split(word, sep) == [word]
  {
    if word != [] {
      SplitWord(word[1..], sep);
      assert [word[0]] + word[1..] == word;
    }
  }

  lemma {:induction false} SplitFirst(word: string, sep: char, rest: string)
    requires sep !in word
    ensures Split(word + [sep] + rest, sep) == [word] + Split(rest, sep)
  {
    var s := word + [sep] + rest;
    if word == [] {
      assert s[1..] == rest;
    } else {
      SplitFirst(word[1..], sep, rest);
      assert s[1..] == word[1..] + [sep] + rest;
      assert [word[0]] + word[1..] == word;
    }
  }

  /** A non-empty list survives the wire when none of its URLs holds the separator. */
  lemma {:induction false} JoinSplit(urls: seq<string>, sep: char)
    requires urls != [] && forall u :: u in urls ==> sep !in u
    ensures Split(Join(urls, sep), sep) == urls
  {
    if |urls| == 1 {
      SplitWord(urls[0], sep);
      assert urls == [urls[0]];
    } else {
      JoinSplit(urls[1..], sep);
      SplitFirst(urls[0], sep, Join(urls[1..], sep));
      assert urls == [urls[0]] + urls[1..];
    }
  }

  // ----- both clients

  /** What `urls` holds beyond `others`. */
  function Except(urls: seq<string>, others: seq<string>): (r: seq<string>)
    ensures forall u :: u in r <==> u in urls && u !in others
  {
    if urls == [] then []
    else (if urls[0] in others then [] else [urls[0]]) + Except(urls[1..], others)
  }

  /** `missing_urls`: the wanted URLs not already listed. */
  function MissingUrls(wanted: seq<string>, listed: seq<string>): seq<string> {
    Except(wanted, listed)
  }

  /** Order and repeats are those of the list asked for. */
  lemma {:induction false} MissingInOrder(before: seq<string>, u: string, listed: seq<string>)
    ensures MissingUrls(before + [u], listed)
            == MissingUrls(before, listed) + if u in listed then [] else [u]
  {
    var all := before + [u];
    if before == [] {
      assert all[1..] == [];
    } else {
      assert all[1..] == before[1..] + [u];
      MissingInOrder(before[1..], u, listed);
    }
  }

  // ----- qBittorrent

  /** The `** [DHT] **` entries qBittorrent lists beside real trackers. */
  predicate Pseudo(url: string) { |url| >= 2 && url[..2] == "**" }

  lemma TwoStars(url: string)
    ensures Pseudo(url) <==> |url| >= 2 && url[0] == '*' && url[1] == '*'
  {
    if |url| >= 2 {
      assert url[..2] == [url[0], url[1]];
      assert "**" == ['*', '*'];
    }
  }

  /** What a parsed `Url` prints as: no newline in it, and not a pseudo-entry. */
  predicate UrlText(url: string) { url != [] && '\n' !in url && !Pseudo(url) }

  function AddAll(listed: seq<string>, urls: seq<string>): (r: seq<string>)
    ensures forall u :: u in r <==> u in listed || u in urls
    ensures NoDuplicates(listed) ==> NoDuplicates(r)
    decreases urls
  {
    if urls == [] then listed
    else AddAll(if urls[0] in listed then listed else listed + [urls[0]], urls[1..])
  }

  function Remove(listed: seq<string>, urls: seq<string>): seq<string> {
    Except(listed, urls)
  }

  /** The existing entries a replacement no longer wants. */
  function Stale(listed: seq<string>, wanted: seq<string>): (r: seq<string>)
    ensures forall u :: u in r <==> u in listed && !Pseudo(u) && u !in wanted
  {
    if listed == [] then []
    else (if Pseudo(listed[0]) || listed[0] in wanted then [] else [listed[0]]) + Stale(listed[1..], wanted)
  }

  class QbitTorrent {
    var trackers: seq<string>

    constructor (trackers: seq<string>)
      ensures this.trackers == trackers
    {
      this.trackers := trackers;
    }

    /** `POST torrents/addTrackers`, or nothing for an empty list. */
    method PostAdd(urls: seq<string>)
      modifies this
      ensures trackers == if urls == [] then old(trackers) else AddAll(old(trackers), Split(Join(urls, '\n'), '\n'))
    {
      if urls == [] {
        return;
      }
      trackers := AddAll(trackers, Split(Join(urls, '\n'), '\n'));
    }

    /** `POST torrents/removeTrackers`, or nothing for an empty list. */
    method PostRemove(urls: seq<string>)
      modifies this
      ensures trackers == if urls == [] then old(trackers) else Remove(old(trackers), Split(Join(urls, '|'), '|'))
    {
      if urls == [] {
        return;
      }
      trackers := Remove(trackers, Split(Join(urls, '|'), '|'));
    }

    method SetTorrentTrackers(urls: seq<string>)
      modifies this
      ensures trackers == Replaced(old(trackers), urls)
    {
      var existing := trackers;
      PostAdd(MissingUrls(urls, existing));
      PostRemove(Stale(existing, urls));
    }

    method AddTorrentTrackers(urls: seq<string>)
      modifies this
      ensures trackers == Added(old(trackers), urls)
    {
      var additions := MissingUrls(urls, trackers);
      if additions == [] {
        return;
      }
      PostAdd(additions);
    }
  }

  /** After the add half of a replacement. */
  function Added(listed: seq<string>, wanted: seq<string>): seq<string> {
    var additions := MissingUrls(wanted, listed);
    if additions == [] then listed else AddAll(listed, Split(Join(additions, '\n'), '\n'))
  }

  /** After both halves. */
  function Replaced(listed: seq<string>, wanted: seq<string>): seq<string> {
    var stale := Stale(listed, wanted);
    if stale == [] then Added(listed, wanted)
    else Remove(Added(listed, wanted), Split(Join(stale, '|'), '|'))
  }

  ghost predicate AllUrls(urls: seq<string>) {
    forall u :: u in urls ==> UrlText(u)
  }

  /** From the add step on every wanted URL is present, even if the remove step never runs, and
      nothing that was listed is gone. */
  lemma AddedHasEverything(listed: seq<string>, wanted: seq<string>)
    requires AllUrls(wanted)
    ensures forall u :: u in Added(listed, wanted) <==> u in listed || u in wanted
    ensures NoDuplicates(listed) ==> NoDuplicates(Added(listed, wanted))
  {
    var additions := MissingUrls(wanted, listed);
    if additions != [] {
      JoinSplit(additions, '\n');
    }
  }

  /** Exactly the wanted URLs and the untouched pseudo-entries. */
  ghost predicate ExactlyWanted(now: seq<string>, listed: seq<string>, wanted: seq<string>) {
    forall u :: u in now <==> u in wanted || (u in listed && |u| >= 2 && u[0] == '*' && u[1] == '*')
  }

  /** A replacement ends with exactly the wanted URLs plus the untouched pseudo-entries if and
      only if no stale URL contains the `|` the remove request joins them with. */
  lemma ReplacedExactlyIff(listed: seq<string>, wanted: seq<string>)
    requires AllUrls(wanted)
    ensures ExactlyWanted(Replaced(listed, wanted), listed, wanted)
            <==> forall u :: u in listed && '|' in u ==> Pseudo(u) || u in wanted
  {
    AddedHasEverything(listed, wanted);
    forall u ensures Pseudo(u) <==> |u| >= 2 && u[0] == '*' && u[1] == '*' {
      TwoStars(u);
    }
    var stale, now := Stale(listed, wanted), Replaced(listed, wanted);
    if stale != [] {
      var sent := Split(Join(stale, '|'), '|');
      assert forall u :: u in now <==> (u in listed || u in wanted) && u !in sent;
      if forall u :: u in listed && '|' in u ==> Pseudo(u) || u in wanted {
        assert forall u :: u in stale ==> '|' !in u;
        JoinSplit(stale, '|');
      } else {
        var u :| u in listed && '|' in u && !Pseudo(u) && u !in wanted;
        assert u !in sent && u in now;
      }
    }
  }

  /** A stale URL with a bar in it is not removed, and the piece before its bar is, even where that
      piece is wanted. */
  lemma BarTakesAway(url: string, before: string, after: string)
    requires url == before + ['|'] + after && '|' !in before && '|' !in after && !Pseudo(url)
    ensures Replaced([url, before], [before]) == [url]
  {
    var listed, wanted := [url, before], [before];
    NothingMissing(wanted, listed);
    assert listed[1..] == [before];
    assert Stale([before], wanted) == [];
    assert Stale(listed, wanted) == [url];
    SplitFirst(before, '|', after);
    SplitWord(after, '|');
    var sent := [before, after];
    assert Split(Join([url], '|'), '|') == sent;
    assert |url| > |before| && |url| > |after|;
    assert listed == [url] + [before];
    assert before == sent[0];
    RemoveTail([url], [before], sent);
  }

  lemma BarInStaleUrl()
    ensures Replaced(["h://a|b", "h://a"], ["h://a"]) == ["h://a|b"]
  {
    var url := "h://a|b";
    assert url == "h://a" + ['|'] + "b";
    assert !Pseudo(url) by { assert url[..2][0] == 'h' && "**"[0] == '*'; }
    BarTakesAway(url, "h://a", "b");
  }

  lemma {:induction false} NothingMissing(wanted: seq<string>, listed: seq<string>)
    requires forall u :: u in wanted ==> u in listed
    ensures MissingUrls(wanted, listed) == []
  {
    if wanted != [] {
      NothingMissing(wanted[1..], listed);
    }
  }

  // ----- replacing again

  /** The pieces the remove request really asks for: those of each URL it carries. */
  lemma {:induction false} SplitPieces(s: string, rest: string, sep: char)
    ensures Split(s + [sep] + rest, sep) == Split(s, sep) + Split(rest, sep)
  {
    var all := s + [sep] + rest;
    if s == [] {
      assert all[1..] == rest;
    } else {
      assert all[1..] == s[1..] + [sep] + rest;
      SplitPieces(s[1..], rest, sep);
      if s[0] != sep {
        PrependAppend(s[0], Split(s[1..], sep), Split(rest, sep));
      }
    }
  }

  lemma PrependAppend(head: char, a: seq<string>, b: seq<string>)
    requires a != []
    ensures Prepend(head, a + b) == Prepend(head, a) + b
  {
    assert (a + b)[1..] == a[1..] + b;
  }

  ghost predicate PieceOfSome(piece: string, urls: seq<string>, sep: char) {
    exists u :: u in urls && piece in Split(u, sep)
  }

  lemma {:induction false} SentPieces(urls: seq<string>, sep: char, piece: string)
    requires urls != []
    ensures piece in Split(Join(urls, sep), sep) <==> PieceOfSome(piece, urls, sep)
  {
    if |urls| == 1 {
      assert urls[0] in urls;
    } else {
      SplitPieces(urls[0], Join(urls[1..], sep), sep);
      SentPieces(urls[1..], sep, piece);
      assert forall u :: u in urls <==> u == urls[0] || u in urls[1..];
    }
  }

  lemma {:induction false} AddedBehind(listed: seq<string>, urls: seq<string>) returns (more: seq<string>)
    ensures AddAll(listed, urls) == listed + more && forall u :: u in more ==> u in urls
    decreases urls
  {
    if urls == [] {
      more := [];
    } else if urls[0] in listed {
      more := AddedBehind(listed, urls[1..]);
    } else {
      var rest := AddedBehind(listed + [urls[0]], urls[1..]);
      more := [urls[0]] + rest;
      assert (listed + [urls[0]]) + rest == listed + more;
    }
  }

  lemma {:induction false} RemoveTail(kept: seq<string>, more: seq<string>, sent: seq<string>)
    requires forall u :: u in kept ==> u !in sent
    requires forall u :: u in more ==> u in sent
    ensures Remove(kept + more, sent) == kept
  {
    if kept != [] {
      assert (kept + more)[1..] == kept[1..] + more;
      RemoveTail(kept[1..], more, sent);
      assert kept == [kept[0]] + kept[1..];
    } else if more != [] {
      assert kept + more == more;
      RemoveTail(kept, more[1..], sent);
      assert kept + more[1..] == more[1..];
    }
  }

  /** A wanted URL a replacement took away with a stale one is taken away by the same stale URL
      the next time: that one holds the bar and is still there. */
  lemma TakenAgain(listed: seq<string>, wanted: seq<string>, u: string)
    requires AllUrls(wanted) && u in wanted && u !in Replaced(listed, wanted)
    ensures var left := Stale(Replaced(listed, wanted), wanted);
            left != [] && u in Split(Join(left, '|'), '|')
  {
    AddedHasEverything(listed, wanted);
    var stale, now := Stale(listed, wanted), Replaced(listed, wanted);
    var sent, left := Split(Join(stale, '|'), '|'), Stale(now, wanted);
    SentPieces(stale, '|', u);
    var from :| from in stale && u in Split(from, '|');
    if '|' !in from {
      SplitWord(from, '|');
    }
    assert from !in sent && from in now;
    assert from in left;
    SentPieces(left, '|', u);
  }

  /** What the second replacement asks to remove was asked for the first time too. */
  lemma AskedBefore(listed: seq<string>, wanted: seq<string>, u: string)
    requires AllUrls(wanted) && Stale(Replaced(listed, wanted), wanted) != []
    requires u in Replaced(listed, wanted)
    ensures u !in Split(Join(Stale(Replaced(listed, wanted), wanted), '|'), '|')
  {
    AddedHasEverything(listed, wanted);
    var stale, left := Stale(listed, wanted), Stale(Replaced(listed, wanted), wanted);
    assert left[0] in left && left[0] in stale;
    SentPieces(left, '|', u);
    SentPieces(stale, '|', u);
    assert forall from :: from in left ==> from in stale;
  }

  /** Replacing again changes nothing, not even the order, whatever was listed. */
  lemma ReplacingTwice(listed: seq<string>, wanted: seq<string>)
    requires AllUrls(wanted)
    ensures Replaced(Replaced(listed, wanted), wanted) == Replaced(listed, wanted)
  {
    var now := Replaced(listed, wanted);
    var missing, left := MissingUrls(wanted, now), Stale(now, wanted);
    forall u | u in missing ensures left != [] && u in Split(Join(left, '|'), '|') {
      TakenAgain(listed, wanted, u);
    }
    var more := [];
    if missing != [] {
      assert missing[0] in missing;
      JoinSplit(missing, '\n');
      more := AddedBehind(now, missing);
    }
    assert Added(now, wanted) == now + more;
    if left != [] {
      forall u | u in now ensures u !in Split(Join(left, '|'), '|') {
        AskedBefore(listed, wanted, u);
      }
      RemoveTail(now, more, Split(Join(left, '|'), '|'));
    }
  }

  // ----- Deluge

  datatype Tier = Tier(url: string, tier: nat)

  function Tiered(urls: seq<string>): (r: seq<Tier>)
    ensures |r| == |urls|
    ensures forall i :: 0 <= i < |r| ==> r[i] == Tier(urls[i], i)
  {
    seq(|urls|, i requires 0 <= i < |urls| => Tier(urls[i], i))
  }

  function Shifted(ts: seq<Tier>, shift: nat): (r: seq<Tier>)
    ensures |r| == |ts|
    ensures forall i :: 0 <= i < |r| ==> r[i] == Tier(ts[i].url, ts[i].tier + shift)
  {
    seq(|ts|, i requires 0 <= i < |ts| => Tier(ts[i].url, ts[i].tier + shift))
  }

  function Urls(ts: seq<Tier>): (r: seq<string>)
    ensures |r| == |ts|
    ensures forall i :: 0 <= i < |r| ==> r[i] == ts[i].url
  {
    seq(|ts|, i requires 0 <= i < |ts| => ts[i].url)
  }

  /** New tiers first, each on its own; what was there keeps its relative tiers, shifted. */
  function DelugeAdded(listed: seq<Tier>, wanted: seq<string>): seq<Tier> {
    var missing := MissingUrls(wanted, Urls(listed));
    if missing == [] then listed else Tiered(missing) + Shifted(listed, |missing|)
  }

  class DelugeTorrent {
    var trackers: seq<Tier>

    constructor (trackers: seq<Tier>)
      ensures this.trackers == trackers
    {
      this.trackers := trackers;
    }

    method AddTrackers(urls: seq<string>)
      modifies this
      ensures trackers == DelugeAdded(old(trackers), urls)
    {
      if urls == [] {
        return;
      }
      var existing := trackers;
      var missing := MissingUrls(urls, Urls(existing));
      if missing == [] {
        return;
      }
      var shift := |missing|;
      var list := Tiered(missing);
      list := list + Shifted(existing, shift);
      trackers := list;
    }
  }

  /** Every tracker that was there stays, in its order and with its tier distances, strictly
      behind every new one; the new ones are the missing URLs in the order asked for, each in a
      tier of its own, and every URL asked for is listed. */
  lemma DelugeKeepsAllBehind(listed: seq<Tier>, wanted: seq<string>)
    ensures var now := DelugeAdded(listed, wanted);
            var n := |MissingUrls(wanted, Urls(listed))|;
            && |now| == n + |listed|
            && (forall i :: 0 <= i < |listed| ==> now[n + i] == Tier(listed[i].url, listed[i].tier + n))
            && (forall i, j :: 0 <= i < n && n <= j < |now| ==> now[i].tier < now[j].tier)
            && (forall i :: 0 <= i < n ==> now[i] == Tier(MissingUrls(wanted, Urls(listed))[i], i))
            && (forall i :: 0 <= i < n ==> now[i].url in wanted && now[i].url !in Urls(listed))
            && (forall u :: u in Urls(now) <==> u in wanted || u in Urls(listed))
  {
    DelugeShape(listed, wanted);
    DelugeUrls(listed, wanted);
    var missing := MissingUrls(wanted, Urls(listed));
    assert forall i :: 0 <= i < |missing| ==> missing[i] in missing;
  }

  lemma DelugeShape(listed: seq<Tier>, wanted: seq<string>)
    ensures var missing := MissingUrls(wanted, Urls(listed));
            InFront(missing, listed, DelugeAdded(listed, wanted))
  {
    var missing := MissingUrls(wanted, Urls(listed));
    TieredInFront(missing, listed);
    if missing == [] {
      assert Tiered([]) + Shifted(listed, 0) == listed;
    }
  }

  ghost predicate InFront(urls: seq<string>, listed: seq<Tier>, now: seq<Tier>) {
    && |now| == |urls| + |listed|
    && (forall i :: 0 <= i < |urls| ==> now[i] == Tier(urls[i], i))
    && (forall i :: 0 <= i < |listed| ==>
          now[|urls| + i] == Tier(listed[i].url, listed[i].tier + |urls|))
  }

  lemma TieredInFront(urls: seq<string>, listed: seq<Tier>)
    ensures InFront(urls, listed, Tiered(urls) + Shifted(listed, |urls|))
  {
  }

  lemma DelugeUrls(listed: seq<Tier>, wanted: seq<string>)
    ensures Urls(DelugeAdded(listed, wanted)) == MissingUrls(wanted, Urls(listed)) + Urls(listed)
    ensures forall u :: u in Urls(DelugeAdded(listed, wanted)) <==> u in wanted || u in Urls(listed)
  {
    var missing := MissingUrls(wanted, Urls(listed));
    var now := Urls(DelugeAdded(listed, wanted));
    assert now == missing + Urls(listed);
    assert forall u :: u in now <==> u in missing || u in Urls(listed);
  }

  /** Adding the same trackers again writes the same list. */
  lemma DelugeAddingTwice(listed: seq<Tier>, wanted: seq<string>)
    ensures DelugeAdded(DelugeAdded(listed, wanted), wanted) == DelugeAdded(listed, wanted)
  {
    DelugeKeepsAllBehind(listed, wanted);
    NothingMissing(wanted, Urls(DelugeAdded(listed, wanted)));
  }
}
