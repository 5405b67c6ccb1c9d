/** A friend's name as an *arr tag can carry it. */
module Slugs {
  import opened Basics

  /** The maximal runs of letters and digits of a name, lowercased. */
  function Words(name: string): seq<string> {
    if name == [] then []
    else
      var front, c := name[..|name| - 1], name[|name| - 1];
      var ws := Words(front);
      if !IsAlnum(c) then ws
      else if front != [] && IsAlnum(front[|front| - 1]) && ws != [] then
        ws[..|ws| - 1] + [ws[|ws| - 1] + [LowerChar(c)]]
      else ws + [[LowerChar(c)]]
  }

  function Dashed(ws: seq<string>): string {
    if ws == [] then []
    else if |ws| == 1 then ws[0]
    else Dashed(ws[..|ws| - 1]) + ['-'] + ws[|ws| - 1]
  }

  /** `friend_slug`: the words of a name, joined by single dashes. */
  function Slug(name: string): string { Dashed(Words(name)) }

  predicate IsWord(w: string) {
    w != [] && forall i :: 0 <= i < |w| ==> IsAlnum(w[i]) && !IsUpper(w[i])
  }

  ghost predicate AreWords(ws: seq<string>) {
    forall i :: 0 <= i < |ws| ==> IsWord(ws[i])
  }

  lemma {:induction false} WordsAreWords(name: string)
    ensures AreWords(Words(name))
    ensures name != [] && IsAlnum(name[|name| - 1]) ==> Words(name) != []
  {
    if name != [] {
      WordsAreWords(name[..|name| - 1]);
    }
  }

  lemma DashedGrows(ws: seq<string>, c: char)
    requires ws != []
    ensures Dashed(ws[..|ws| - 1] + [ws[|ws| - 1] + [c]]) == Dashed(ws) + [c]
  {
    var longer := ws[..|ws| - 1] + [ws[|ws| - 1] + [c]];
    assert longer[..|longer| - 1] == ws[..|ws| - 1];
    if |ws| > 1 {
      assert Dashed(longer) == Dashed(ws[..|ws| - 1]) + ['-'] + (ws[|ws| - 1] + [c]);
    }
  }

  lemma DashedMore(ws: seq<string>, w: string)
    ensures Dashed(ws + [w]) == if ws == [] then w else Dashed(ws) + ['-'] + w
  {
    assert (ws + [w])[..|ws|] == ws;
  }

  lemma DashedEnd(ws: seq<string>)
    requires AreWords(ws)
    ensures ws == [] <==> Dashed(ws) == []
    ensures ws != [] ==> Dashed(ws)[|Dashed(ws)| - 1] != '-'
  {
    if ws != [] {
      var w := ws[|ws| - 1];
      assert IsWord(w) && IsAlnum(w[|w| - 1]);
      assert Dashed(ws)[|Dashed(ws)| - 1] == w[|w| - 1];
    }
  }

  predicate EndsInWord(name: string) { name != [] && IsAlnum(name[|name| - 1]) }

  /** What the loop holds after `name`: its slug, and a dash if one is pending. */
  function RawSlug(name: string): string {
    if EndsInWord(name) || Words(name) == [] then Slug(name) else Slug(name) + ['-']
  }

  lemma WordsStep(front: string, c: char)
    requires IsAlnum(c)
    ensures var ws := Words(front);
            Words(front + [c])
            == if EndsInWord(front) then
                 WordsAreWords(front);
                 ws[..|ws| - 1] + [ws[|ws| - 1] + [LowerChar(c)]]
               else ws + [[LowerChar(c)]]
  {
    var longer := front + [c];
    assert longer[..|longer| - 1] == front;
    WordsAreWords(front);
  }

  lemma RawSlugGrows(front: string, c: char)
    requires IsAlnum(c)
    ensures RawSlug(front + [c]) == RawSlug(front) + [LowerChar(c)]
  {
    assert RawSlug(front + [c]) == Dashed(Words(front + [c]));
    WordsStep(front, c);
    if EndsInWord(front) {
      WordsAreWords(front);
      DashedGrows(Words(front), LowerChar(c));
    } else {
      DashedMore(Words(front), [LowerChar(c)]);
    }
  }

  lemma RawSlugPauses(front: string, c: char)
    requires !IsAlnum(c)
    ensures var raw := RawSlug(front);
            RawSlug(front + [c]) == if raw != [] && raw[|raw| - 1] != '-' then raw + ['-'] else raw
  {
    var longer := front + [c];
    assert longer[..|longer| - 1] == front && Words(longer) == Words(front);
    WordsAreWords(front);
    DashedEnd(Words(front));
  }

  function TrimDashes(s: string): string {
    if s != [] && s[|s| - 1] == '-' then TrimDashes(s[..|s| - 1]) else s
  }

  lemma TrimmedRawSlug(name: string)
    ensures TrimDashes(RawSlug(name)) == Slug(name)
  {
    WordsAreWords(name);
    DashedEnd(Words(name));
    var raw := RawSlug(name);
    if raw != Slug(name) {
      assert raw[..|raw| - 1] == Slug(name);
    }
  }

  method FriendSlug(name: string) returns (slug: string)
    ensures slug == Slug(name)
  {
    slug := [];
    for i := 0 to |name|
      invariant slug == RawSlug(name[..i])
    {
      var c := name[i];
      assert name[..i + 1] == name[..i] + [c];
      if IsAlnum(c) {
        RawSlugGrows(name[..i], c);
        slug := slug + [LowerChar(c)];
      } else {
        RawSlugPauses(name[..i], c);
        if slug != [] && slug[|slug| - 1] != '-' {
          slug := slug + ['-'];
        }
      }
    }
    assert name[..|name|] == name;
    TrimmedRawSlug(name);
    slug := TrimDashes(slug);
  }

  lemma WordGrows(name: string, ws: seq<string>, w: string, c: char)
    requires Words(name) == ws + [w] && EndsInWord(name) && IsAlnum(c)
    ensures Words(name + [c]) == ws + [w + [LowerChar(c)]]
  {
    WordsStep(name, c);
    assert (ws + [w])[..|ws|] == ws;
  }

  lemma {:induction false} WordsOfRun(front: string, run: string)
    requires run != [] && (forall i :: 0 <= i < |run| ==> IsAlnum(run[i])) && !EndsInWord(front)
    ensures Words(front + run) == Words(front) + [Lower(run)]
    decreases |run|
  {
    var shorter, c := run[..|run| - 1], run[|run| - 1];
    assert front + run == (front + shorter) + [c];
    assert Lower(run) == Lower(shorter) + [LowerChar(c)];
    if |run| == 1 {
      WordsStep(front, c);
      assert front + shorter == front;
      assert Lower(run) == [LowerChar(c)];
    } else {
      WordsOfRun(front, shorter);
      assert (front + shorter)[|front + shorter| - 1] == run[|run| - 2];
      WordGrows(front + shorter, Words(front), Lower(shorter), c);
    }
  }

  lemma WordsOfWord(front: string, w: string)
    requires IsWord(w) && (front == [] || front[|front| - 1] == '-')
    ensures Words(front + w) == Words(front) + [w]
  {
    assert Lower(w) == w;
    WordsOfRun(front, w);
  }

  lemma WordsPause(front: string)
    ensures Words(front + ['-']) == Words(front)
  {
    assert (front + ['-'])[..|front|] == front;
  }

  lemma {:induction false} WordsOfDashed(ws: seq<string>)
    requires AreWords(ws)
    ensures Words(Dashed(ws)) == ws
  {
    if |ws| > 0 {
      var front, w := ws[..|ws| - 1], ws[|ws| - 1];
      assert ws == front + [w] && IsWord(w);
      DashedMore(front, w);
      if front == [] {
        WordsOfWord([], w);
        assert [] + w == w;
      } else {
        WordsOfDashed(front);
        WordsPause(Dashed(front));
        WordsOfWord(Dashed(front) + ['-'], w);
      }
    }
  }

  /** A slug is its own slug, so the name in a tag can be compared with it directly. */
  lemma SlugIsCanonical(name: string)
    ensures Slug(Slug(name)) == Slug(name)
    ensures Slug(name) == [] <==> Words(name) == []
  {
    WordsAreWords(name);
    WordsOfDashed(Words(name));
    DashedEnd(Words(name));
  }

  predicate LettersOrDigits(s: string) {
    forall i :: 0 <= i < |s| ==> 'a' <= s[i] <= 'z' || 'A' <= s[i] <= 'Z' || '0' <= s[i] <= '9'
  }

  predicate Neither(s: string) {
    forall i :: 0 <= i < |s| ==> !('a' <= s[i] <= 'z' || 'A' <= s[i] <= 'Z' || '0' <= s[i] <= '9')
  }

  lemma {:induction false} WordsSkip(front: string, sep: string)
    requires Neither(sep)
    ensures Words(front + sep) == Words(front)
  {
    if sep == [] {
      assert front + sep == front;
    } else {
      var shorter := sep[..|sep| - 1];
      WordsSkip(front, shorter);
      assert front + sep == (front + shorter) + [sep[|sep| - 1]];
      assert ((front + shorter) + [sep[|sep| - 1]])[..|front + shorter|] == front + shorter;
    }
  }

  /** What a slug is, piece by piece. Letters and digits are kept, lowercased. */
  lemma SlugOfWord(word: string)
    requires LettersOrDigits(word) && word != []
    ensures Slug(word) == Lower(word)
  {
    WordsOfRun("", word);
    assert "" + word == word;
    assert Words(word) == [Lower(word)];
  }

  /** Anything else after them leaves no trace, and neither does nothing. */
  lemma SlugSkips(name: string, sep: string)
    requires Neither(sep)
    ensures Slug(name + sep) == Slug(name) && Slug("") == ""
  {
    WordsSkip(name, sep);
  }

  /** Between them it is one dash, and before them none. */
  lemma SlugJoins(name: string, sep: string, word: string)
    requires Neither(sep) && sep != [] && LettersOrDigits(word) && word != []
    ensures Slug(name + sep + word) == if Slug(name) == [] then Lower(word) else Slug(name) + ['-'] + Lower(word)
  {
    WordsSkip(name, sep);
    assert !EndsInWord(name + sep);
    WordsOfRun(name + sep, word);
    DashedMore(Words(name), Lower(word));
    WordsAreWords(name);
    DashedEnd(Words(name));
  }

  /** The name `<tag>-<friend>` tags call a friend, if any can. */
  function FriendName(name: string): Option<string> {
    var slug := Slug(name);
    if slug == [] then None else Some(slug)
  }

  lemma SlugIsLower(name: string)
    ensures Lower(Slug(name)) == Slug(name)
  {
    WordsAreWords(name);
    DashedIsLower(Words(name));
  }

  lemma {:induction false} DashedIsLower(ws: seq<string>)
    requires AreWords(ws)
    ensures forall i :: 0 <= i < |Dashed(ws)| ==> !IsUpper(Dashed(ws)[i])
  {
    if ws != [] {
      var front, w := ws[..|ws| - 1], ws[|ws| - 1];
      assert IsWord(w);
      DashedIsLower(front);
      if |ws| > 1 {
        assert Dashed(ws) == Dashed(front) + ['-'] + w;
      }
    }
  }
}
