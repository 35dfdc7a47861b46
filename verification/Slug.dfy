/**
 * The slugs of auth.service.ts, organizations.service.ts and projects.service.ts: three copies
 * of slugify and uniqueSlug that differ in the fallback word and in what happens when every
 * candidate is taken. The pattern is that of create-organization.dto.ts.
 */
module Slug {
  import opened Prelude

  const MAX_LENGTH := 60
  const MAX_ATTEMPTS := 20
  const DASH := '-'

  predicate IsAlnum(c: char) {
    'a' <= c <= 'z' || '0' <= c <= '9'
  }

  predicate IsWord(w: string) {
    w != [] && forall i :: 0 <= i < |w| ==> IsAlnum(w[i])
  }

  /** Words with one dash between neighbours. */
  function Join(ws: seq<string>): string {
    if ws == [] then []
    else if |ws| == 1 then ws[0]
    else Join(ws[..|ws| - 1]) + [DASH] + ws[|ws| - 1]
  }

  predicate AllWords(ws: seq<string>) {
    forall k :: 0 <= k < |ws| ==> IsWord(ws[k])
  }

  /** The pattern [a-z0-9]+(-[a-z0-9]+)* */
  ghost predicate Matches(s: string) {
    exists ws :: ws != [] && AllWords(ws) && Join(ws) == s
  }

  /** The maximal runs of letters and digits. */
  function Words(s: string): seq<string> {
    if s == [] then []
    else
      var front, c := s[..|s| - 1], s[|s| - 1];
      var ws := Words(front);
      if !IsAlnum(c) then ws
      else if ws == [] || !IsAlnum(front[|front| - 1]) then ws + [[c]]
      else ws[..|ws| - 1] + [ws[|ws| - 1] + [c]]
  }

  function TrimDashes(s: string): string {
    if s != [] && s[|s| - 1] == DASH then TrimDashes(s[..|s| - 1]) else s
  }

  function Take(s: string, n: nat): string {
    if |s| <= n then s else s[..n]
  }

  /** What slugify means: the words of the text, joined, cut to length, without a dash at the end. */
  function SlugOf(s: string): string {
    TrimDashes(Take(Join(Words(s)), MAX_LENGTH))
  }

  // ------------------------------------------------------------------ lower case and trimming

  /** toLowerCase, one character at a time, and the characters that trim removes. */
  datatype Unicode = Unicode(fold: char -> string, isSpace: char -> bool)
  {
    /** ASCII is folded as usual and slug characters are not space; nothing is said about other characters. */
    ghost predicate Sound() {
      && (forall c: char :: c as int < 128 ==> fold(c) == [LowerChar(c)])
      && (forall c: char :: IsAlnum(c) || c == DASH ==> !isSpace(c))
    }

    function Lower(s: string): string {
      if s == [] then [] else Lower(s[..|s| - 1]) + fold(s[|s| - 1])
    }

    /** input.toLowerCase().trim() */
    function Normalize(s: string): string {
      TrimEnd(isSpace, TrimStart(isSpace, Lower(s)))
    }
  }

  /** The slug of a text, or the fallback word of the service. */
  function Slugified(u: Unicode, fallback: string, s: string): string {
    if SlugOf(u.Normalize(s)) == [] then fallback else SlugOf(u.Normalize(s))
  }

  // ------------------------------------------------------------------ the loop of slugify

  /** The loop's output so far, were there no length limit. */
  function Collapse(s: string): string {
    if s == [] then []
    else
      var out, c := Collapse(s[..|s| - 1]), s[|s| - 1];
      if IsAlnum(c) then out + [c]
      else if out != [] && out[|out| - 1] != DASH then out + [DASH]
      else out
  }

  lemma {:induction false} CollapsePrefix(s: string, i: nat)
    requires i <= |s|
    ensures Collapse(s[..i]) <= Collapse(s)
  {
    if i == |s| {
      assert s[..i] == s;
    } else {
      CollapsePrefix(s[..|s| - 1], i);
      assert s[..|s| - 1][..i] == s[..i];
    }
  }

  ghost predicate EndsInWord(s: string) {
    s != [] && IsAlnum(s[|s| - 1])
  }

  lemma {:induction false} WordsAreWords(s: string)
    ensures AllWords(Words(s)) && (EndsInWord(s) ==> Words(s) != [])
  {
    if s != [] {
      WordsAreWords(s[..|s| - 1]);
    }
  }

  lemma {:induction false} JoinEndsInWord(ws: seq<string>)
    requires AllWords(ws) && ws != []
    ensures EndsInWord(Join(ws)) && IsAlnum(Join(ws)[0])
  {
    if |ws| > 1 {
      JoinEndsInWord(ws[..|ws| - 1]);
    }
  }

  lemma JoinMore(ws: seq<string>, w: string)
    requires ws != []
    ensures Join(ws + [w]) == Join(ws) + [DASH] + w
  {
    assert (ws + [w])[..|ws|] == ws;
  }

  lemma JoinLonger(front: seq<string>, w: string, c: char)
    ensures Join(front + [w + [c]]) == Join(front + [w]) + [c]
  {
    if front == [] {
      assert front + [w + [c]] == [w + [c]] && front + [w] == [w];
    } else {
      JoinMore(front, w);
      JoinMore(front, w + [c]);
      Assoc(Join(front) + [DASH], w, [c]);
    }
  }

  lemma JoinLastLonger(ws: seq<string>, c: char)
    requires ws != []
    ensures Join(ws[..|ws| - 1] + [ws[|ws| - 1] + [c]]) == Join(ws) + [c]
  {
    JoinLonger(ws[..|ws| - 1], ws[|ws| - 1], c);
    Snoc(ws);
  }

  lemma NewWord(ws: seq<string>, c: char)
    requires ws != []
    ensures Join(ws + [[c]]) == (Join(ws) + [DASH]) + [c]
  {
    JoinMore(ws, [c]);
  }

  /** The loop joins the words, and leaves a dash when it stops between two. */
  lemma {:induction false} CollapseIsJoin(s: string)
    ensures Collapse(s) == (if Words(s) == [] || EndsInWord(s) then Join(Words(s)) else Join(Words(s)) + [DASH])
  {
    if s != [] {
      var front, c := s[..|s| - 1], s[|s| - 1];
      var ws := Words(front);
      CollapseIsJoin(front);
      WordsAreWords(front);
      if ws == [] {
      } else if !IsAlnum(c) {
        JoinEndsInWord(ws);
      } else if EndsInWord(front) {
        JoinLastLonger(ws, c);
      } else {
        NewWord(ws, c);
      }
    }
  }

  lemma TrimLast(s: string)
    ensures TrimDashes(s + [DASH]) == TrimDashes(s)
  {
    assert (s + [DASH])[..|s|] == s;
  }

  lemma CutIsSlug(s: string)
    ensures TrimDashes(Take(Collapse(s), MAX_LENGTH)) == SlugOf(s)
  {
    CollapseIsJoin(s);
    var j := Join(Words(s));
    if Collapse(s) != j {
      if |j| < MAX_LENGTH {
        TrimLast(j);
      } else {
        assert (j + [DASH])[..MAX_LENGTH] == j[..MAX_LENGTH];
      }
    }
  }

  /** slugify */
  method Slugify(input: string, u: Unicode, fallback: string) returns (slug: string)
    ensures slug == Slugified(u, fallback, input)
  {
    var s := u.Normalize(input);
    var out: string := [];
    var prevDash := false;
    var i := 0;
    while i < |s| && |out| < MAX_LENGTH
      invariant i <= |s| && |out| <= MAX_LENGTH
      invariant out == Collapse(s[..i])
      invariant prevDash == (out != [] && out[|out| - 1] == DASH)
    {
      assert s[..i + 1][..i] == s[..i];
      if IsAlnum(s[i]) {
        out := out + [s[i]];
        prevDash := false;
      } else if !prevDash && |out| > 0 {
        out := out + [DASH];
        prevDash := true;
      }
      i := i + 1;
    }
    CollapsePrefix(s, i);
    assert s[..|s|] == s;
    assert out == Take(Collapse(s), MAX_LENGTH);
    CutIsSlug(s);
    while |out| > 0 && out[|out| - 1] == DASH
      invariant TrimDashes(out) == SlugOf(s)
    {
      out := out[..|out| - 1];
    }
    return if out == [] then fallback else out;
  }

  // ------------------------------------------------------------------ the pattern

  /** The pattern read character by character. */
  ghost predicate IsSlug(s: string) {
    && s != [] && IsAlnum(s[0]) && IsAlnum(s[|s| - 1])
    && (forall i :: 0 <= i < |s| ==> IsAlnum(s[i]) || s[i] == DASH)
    && (forall i :: 0 < i < |s| ==> IsAlnum(s[i - 1]) || IsAlnum(s[i]))
  }

  /** A slug, perhaps with a dash after it: what the loop holds at any moment. */
  ghost predicate IsStem(s: string) {
    && (s != [] ==> IsAlnum(s[0]))
    && (forall i :: 0 <= i < |s| ==> IsAlnum(s[i]) || s[i] == DASH)
    && (forall i :: 0 < i < |s| ==> IsAlnum(s[i - 1]) || IsAlnum(s[i]))
  }

  lemma {:induction false} CollapseIsStem(s: string)
    ensures IsStem(Collapse(s))
  {
    if s != [] {
      CollapseIsStem(s[..|s| - 1]);
    }
  }

  /** A stem is its own collapse. */
  lemma {:induction false} StemIsFixed(s: string)
    requires IsStem(s)
    ensures Collapse(s) == s
  {
    if s != [] {
      StemIsFixed(s[..|s| - 1]);
      assert s == s[..|s| - 1] + [s[|s| - 1]];
    }
  }

  lemma {:induction false} JoinIsSlug(ws: seq<string>)
    requires AllWords(ws) && ws != []
    ensures IsSlug(Join(ws))
  {
    if |ws| > 1 {
      var front, w := ws[..|ws| - 1], ws[|ws| - 1];
      JoinIsSlug(front);
      SlugAppend(Join(front), w);
    } else {
      assert IsWord(ws[0]);
    }
  }

  /** A dash and a word keep the pattern: one suffix or any number of them. */
  lemma SlugAppend(base: string, suffix: string)
    requires IsSlug(base) && IsWord(suffix)
    ensures IsSlug(base + [DASH] + suffix)
  {
    var s := base + [DASH] + suffix;
    forall i | 0 < i < |s| ensures IsAlnum(s[i - 1]) || IsAlnum(s[i]) {
      if i > |base| {
        assert s[i] == suffix[i - |base| - 1];
      } else {
        assert s[i - 1] == base[i - 1];
      }
    }
  }

  /** The character-by-character reading is the regular expression. */
  lemma MatchesIff(s: string)
    ensures Matches(s) <==> IsSlug(s)
  {
    if Matches(s) {
      var ws :| ws != [] && AllWords(ws) && Join(ws) == s;
      JoinIsSlug(ws);
    }
    if IsSlug(s) {
      StemIsFixed(s);
      CollapseIsJoin(s);
      WordsAreWords(s);
      assert Join(Words(s)) == s;
    }
  }

  lemma TrimStem(s: string)
    requires IsStem(s)
    ensures TrimDashes(s) == [] || IsSlug(TrimDashes(s))
    ensures TrimDashes(s) <= s
  {
    if s != [] && s[|s| - 1] == DASH {
      assert IsAlnum(s[|s| - 2]);
    }
  }

  lemma SlugOfIsSlug(s: string)
    ensures |SlugOf(s)| <= MAX_LENGTH
    ensures SlugOf(s) != [] ==> IsSlug(SlugOf(s))
  {
    CutIsSlug(s);
    CollapseIsStem(s);
    TrimStem(Take(Collapse(s), MAX_LENGTH));
  }

  lemma SlugStays(s: string)
    requires IsSlug(s) && |s| <= MAX_LENGTH
    ensures SlugOf(s) == s
  {
    StemIsFixed(s);
    CutIsSlug(s);
  }

  lemma WordIsSlug(w: string)
    requires IsWord(w)
    ensures IsSlug(w)
  {
    JoinIsSlug([w]);
  }

  /** An example: runs of other characters become one dash, and none stands at either end. */
  lemma SlugExample()
    ensures SlugOf("a b--c9!") == "a-b-c9"
  {
    var t: string := [];
    CollapseStep(t, 'a');
    t := t + ['a'];
    CollapseStep(t, ' ');
    t := t + [' '];
    CollapseStep(t, 'b');
    t := t + ['b'];
    CollapseStep(t, '-');
    t := t + ['-'];
    CollapseStep(t, '-');
    t := t + ['-'];
    CollapseStep(t, 'c');
    t := t + ['c'];
    CollapseStep(t, '9');
    t := t + ['9'];
    CollapseStep(t, '!');
    t := t + ['!'];
    assert t == "a b--c9!" && Collapse(t) == "a-b-c9-";
    CutIsSlug(t);
    TrimLast("a-b-c9");
    assert "a-b-c9" + [DASH] == "a-b-c9-";
  }

  lemma CollapseStep(s: string, c: char)
    ensures Collapse(s + [c])
         == if IsAlnum(c) then Collapse(s) + [c]
            else if Collapse(s) != [] && Collapse(s)[|Collapse(s)| - 1] != DASH then Collapse(s) + [DASH]
            else Collapse(s)
  {
    assert (s + [c])[..|s|] == s;
  }

  /** Slug characters are lower case already and are not trimmed. */
  lemma {:induction false} LowerStays(u: Unicode, s: string)
    requires u.Sound() && forall i :: 0 <= i < |s| ==> IsAlnum(s[i]) || s[i] == DASH
    ensures u.Lower(s) == s
  {
    if s != [] {
      LowerStays(u, s[..|s| - 1]);
      assert u.fold(s[|s| - 1]) == [s[|s| - 1]];
      Snoc(s);
    }
  }

  /** Every result of slugify has at most 60 characters and matches the pattern. */
  lemma SlugIsValid(u: Unicode, fallback: string, s: string)
    requires IsWord(fallback) && |fallback| <= MAX_LENGTH
    ensures |Slugified(u, fallback, s)| <= MAX_LENGTH && Matches(Slugified(u, fallback, s))
  {
    SlugOfIsSlug(u.Normalize(s));
    WordIsSlug(fallback);
    MatchesIff(Slugified(u, fallback, s));
  }

  /** The texts that slugify leaves alone are exactly those that match the pattern and have at most 60 characters. */
  lemma FixedPoints(u: Unicode, fallback: string, s: string)
    requires u.Sound() && IsWord(fallback) && |fallback| <= MAX_LENGTH
    ensures Slugified(u, fallback, s) == s <==> Matches(s) && |s| <= MAX_LENGTH
  {
    SlugIsValid(u, fallback, s);
    MatchesIff(s);
    if IsSlug(s) && |s| <= MAX_LENGTH {
      LowerStays(u, s);
      assert !u.isSpace(s[0]) && !u.isSpace(s[|s| - 1]);
      SlugStays(s);
    }
  }

  /** slugify is idempotent. */
  lemma SlugTwice(u: Unicode, fallback: string, s: string)
    requires u.Sound() && IsWord(fallback) && |fallback| <= MAX_LENGTH
    ensures Slugified(u, fallback, Slugified(u, fallback, s)) == Slugified(u, fallback, s)
  {
    SlugIsValid(u, fallback, s);
    FixedPoints(u, fallback, Slugified(u, fallback, s));
  }

  /** The fallback words of the three services are as the lemmas ask. */
  lemma Fallbacks()
    ensures forall w :: w in {"workspace", "organization", "project"} ==> IsWord(w) && |w| <= MAX_LENGTH
  {
  }

  predicate NoAlnum(s: string) {
    forall i :: 0 <= i < |s| ==> !IsAlnum(s[i])
  }

  lemma {:induction false} WordsEmptyIff(s: string)
    ensures Words(s) == [] <==> NoAlnum(s)
  {
    if s != [] {
      WordsEmptyIff(s[..|s| - 1]);
    }
  }

  lemma SlugEmptyIff(s: string)
    ensures SlugOf(s) == [] <==> NoAlnum(s)
  {
    WordsEmptyIff(s);
    WordsAreWords(s);
    if Words(s) != [] {
      JoinIsSlug(Words(s));
      TrimKeepsHead(Take(Join(Words(s)), MAX_LENGTH));
    }
  }

  lemma {:induction false} TrimKeepsHead(s: string)
    requires s != [] && s[0] != DASH
    ensures TrimDashes(s) != []
  {
    if s[|s| - 1] == DASH {
      TrimKeepsHead(s[..|s| - 1]);
    }
  }

  /** How many letters a-z and digits a text has. */
  function Alnums(s: string): nat {
    if s == [] then 0 else Alnums(s[..|s| - 1]) + (if IsAlnum(s[|s| - 1]) then 1 else 0)
  }

  lemma {:induction false} AlnumsAppend(a: string, b: string)
    ensures Alnums(a + b) == Alnums(a) + Alnums(b)
  {
    if b == [] {
      assert a + b == a;
    } else {
      assert (a + b)[..|a + b| - 1] == a + b[..|b| - 1];
      AlnumsAppend(a, b[..|b| - 1]);
    }
  }

  lemma {:induction false} NoAlnumIff(s: string)
    ensures NoAlnum(s) <==> Alnums(s) == 0
  {
    if s != [] {
      NoAlnumIff(s[..|s| - 1]);
    }
  }

  /** Trimming removes no letter and no digit. */
  lemma {:induction false} TrimStartKeeps(u: Unicode, s: string)
    requires u.Sound()
    ensures Alnums(TrimStart(u.isSpace, s)) == Alnums(s)
  {
    if s != [] && u.isSpace(s[0]) {
      TrimStartKeeps(u, s[1..]);
      AlnumsAppend([s[0]], s[1..]);
      assert s == [s[0]] + s[1..] && [s[0]][..0] == [];
    }
  }

  lemma {:induction false} TrimEndKeeps(u: Unicode, s: string)
    requires u.Sound()
    ensures Alnums(TrimEnd(u.isSpace, s)) == Alnums(s)
  {
    if s != [] && u.isSpace(s[|s| - 1]) {
      TrimEndKeeps(u, s[..|s| - 1]);
    }
  }

  lemma NormalizeKeeps(u: Unicode, s: string)
    requires u.Sound()
    ensures Alnums(u.Normalize(s)) == Alnums(u.Lower(s))
  {
    TrimEndKeeps(u, TrimStart(u.isSpace, u.Lower(s)));
    TrimStartKeeps(u, u.Lower(s));
  }

  lemma {:induction false} LowerHasAlnum(u: Unicode, s: string)
    ensures NoAlnum(u.Lower(s)) <==> forall i :: 0 <= i < |s| ==> NoAlnum(u.fold(s[i]))
  {
    if s != [] {
      var front, last := s[..|s| - 1], s[|s| - 1];
      LowerHasAlnum(u, front);
      NoAlnumAppend(u.Lower(front), u.fold(last));
    }
  }

  lemma NoAlnumAppend(a: string, b: string)
    ensures NoAlnum(a + b) <==> NoAlnum(a) && NoAlnum(b)
  {
    assert forall i :: 0 <= i < |a| ==> (a + b)[i] == a[i];
    assert forall i :: 0 <= i < |b| ==> (a + b)[|a| + i] == b[i];
  }

  /** The fallback word is used exactly for a text without anything that folds to a letter a-z or a digit. */
  lemma FallbackIff(u: Unicode, s: string)
    requires u.Sound()
    ensures SlugOf(u.Normalize(s)) == [] <==> forall i :: 0 <= i < |s| ==> NoAlnum(u.fold(s[i]))
  {
    SlugEmptyIff(u.Normalize(s));
    NoAlnumIff(u.Normalize(s));
    NormalizeKeeps(u, s);
    NoAlnumIff(u.Lower(s));
    LowerHasAlnum(u, s);
  }

  /** In ASCII: exactly for a text without letters of either case and without digits. */
  lemma AsciiFallbackIff(u: Unicode, s: string)
    requires u.Sound() && forall i :: 0 <= i < |s| ==> s[i] as int < 128
    ensures SlugOf(u.Normalize(s)) == [] <==>
            forall i :: 0 <= i < |s| ==> !('a' <= s[i] <= 'z' || 'A' <= s[i] <= 'Z' || '0' <= s[i] <= '9')
  {
    FallbackIff(u, s);
    forall i | 0 <= i < |s|
      ensures NoAlnum(u.fold(s[i])) <==> !('a' <= s[i] <= 'z' || 'A' <= s[i] <= 'Z' || '0' <= s[i] <= '9')
    {
      OneLetter(LowerChar(s[i]));
    }
  }

  lemma OneLetter(c: char)
    ensures NoAlnum([c]) <==> !IsAlnum(c)
  {
    assert [c][0] == c;
  }

  lemma {:induction false} CollapseAlnums(s: string)
    ensures Alnums(Collapse(s)) == Alnums(s)
  {
    if s != [] {
      CollapseAlnums(s[..|s| - 1]);
    }
  }

  lemma JoinAlnums(s: string)
    ensures Alnums(Join(Words(s))) == Alnums(s)
  {
    CollapseAlnums(s);
    CollapseIsJoin(s);
    AlnumsAppend(Join(Words(s)), [DASH]);
    assert [DASH][..0] == [];
  }

  lemma {:induction false} TrimKeepsAt(s: string, k: nat)
    requires k < |s| && s[k] != DASH
    ensures |TrimDashes(s)| > k
  {
    if s[|s| - 1] == DASH {
      TrimKeepsAt(s[..|s| - 1], k);
    }
  }

  /** A slug begins and ends with a letter or digit, and the one after a first dash is one too. */
  lemma LongSlug(j: string)
    requires IsSlug(j) && |j| >= 2
    ensures Alnums(j) >= 2 && |TrimDashes(Take(j, MAX_LENGTH))| >= 2
  {
    var n := |j| - 1;
    AlnumsAppend([j[0]], j[1..n]);
    assert j[..n] == [j[0]] + j[1..n] && [j[0]][..0] == [];
    var k := if IsAlnum(j[1]) then 1 else 2;
    assert IsAlnum(j[0]) && IsAlnum(j[n]);
    TrimKeepsAt(Take(j, MAX_LENGTH), k);
  }

  /**
   * Slugs of one character, which the API's field does not accept, come exactly from texts with one letter or
   * digit.
   */
  lemma ShortIff(u: Unicode, s: string)
    requires u.Sound()
    ensures |SlugOf(u.Normalize(s))| == 1 <==> Alnums(u.Lower(s)) == 1
  {
    NormalizeKeeps(u, s);
    var t := u.Normalize(s);
    JoinAlnums(t);
    WordsAreWords(t);
    var j := Join(Words(t));
    if Words(t) != [] {
      JoinIsSlug(Words(t));
      if |j| >= 2 {
        LongSlug(j);
      } else {
        assert j[..0] == [];
      }
    }
  }

  /** The organization name "A!" has two characters and a slug of one. */
  lemma ShortName(u: Unicode)
    requires u.Sound()
    ensures |SlugOf(u.Normalize("A!"))| == 1
  {
    assert u.fold('A') == ['a'] && u.fold('!') == ['!'];
    assert ['A'][..0] == [] && ['A', '!'][..1] == ['A'];
    assert u.Lower(['A']) == u.Lower([]) + u.fold('A');
    assert u.Lower(['A', '!']) == u.Lower(['A']) + u.fold('!');
    AlnumsAppend(['a'], ['!']);
    assert ['a'][..0] == [] && ['!'][..0] == [];
    assert "A!" == ['A', '!'];
    ShortIff(u, "A!");
  }

  // ------------------------------------------------------------------ uniqueSlug

  /** The candidate of the given attempt. */
  function Candidate(base: string, suffix: nat -> string, attempt: nat): string {
    if attempt == 0 then base else base + [DASH] + suffix(attempt)
  }

  /**
   * The first `q` candidates were in use when they were looked up; `taken(k)` are the slugs in use at the k-th
   * query.
   */
  predicate Tried(base: string, taken: nat -> set<string>, suffix: nat -> string, q: nat) {
    forall k :: 0 <= k < q ==> Candidate(base, suffix, k) in taken(k)
  }

  /** The slug is the first candidate that was not in use when it was looked up. */
  ghost predicate FirstFree(base: string, taken: nat -> set<string>, suffix: nat -> string, slug: string) {
    exists q :: 0 <= q < MAX_ATTEMPTS && Tried(base, taken, suffix, q) && slug == Candidate(base, suffix, q)
        && slug !in taken(q)
  }

  /** uniqueSlug of organizations and projects; `suffix(k)` is the k-th random suffix. None is the ConflictException. */
  method UniqueSlug(base: string, taken: nat -> set<string>, suffix: nat -> string) returns (slug: Option<string>)
    ensures slug.Some? ==> FirstFree(base, taken, suffix, slug.value)
    ensures slug.None? <==> Tried(base, taken, suffix, 20)
    ensures slug.Some? ==> slug.value == base || exists q :: 0 < q < 20 && slug.value == base + "-" + suffix(q)
  {
    var candidate := base;
    var attempt := 0;
    while attempt < MAX_ATTEMPTS
      invariant attempt <= MAX_ATTEMPTS
      invariant candidate == Candidate(base, suffix, attempt)
      invariant Tried(base, taken, suffix, attempt)
    {
      if candidate !in taken(attempt) { return Some(candidate); }
      attempt := attempt + 1;
      candidate := base + [DASH] + suffix(attempt);
    }
    return None;
  }

  /** uniqueSlug of auth.service.ts: after twenty taken candidates a longer suffix, not looked up. */
  method UniqueSlugOrLonger(base: string, taken: nat -> set<string>, suffix: nat -> string, long: string)
      returns (slug: string)
    ensures if Tried(base, taken, suffix, 20) then slug == base + "-" + long
             else FirstFree(base, taken, suffix, slug)
  {
    var candidate := base;
    var attempt := 0;
    while attempt < MAX_ATTEMPTS
      invariant attempt <= MAX_ATTEMPTS
      invariant candidate == Candidate(base, suffix, attempt)
      invariant Tried(base, taken, suffix, attempt)
    {
      if candidate !in taken(attempt) { return candidate; }
      attempt := attempt + 1;
      candidate := base + [DASH] + suffix(attempt);
    }
    return base + [DASH] + long;
  }

  /**
   * A slug with a suffix keeps the pattern, and keeps within the 60 characters of the API's field exactly when
   * there is room.
   */
  lemma SuffixFits(base: string, suffix: string)
    requires Matches(base) && IsWord(suffix)
    ensures Matches(base + [DASH] + suffix)
    ensures |base + [DASH] + suffix| <= MAX_LENGTH <==> |base| <= MAX_LENGTH - 1 - |suffix|
  {
    MatchesIff(base);
    MatchesIff(base + [DASH] + suffix);
    SlugAppend(base, suffix);
  }

  /** Candidates have suffixes of four hex digits: only a base of at most 55 characters leaves room for one. */
  lemma CandidatesMatch(base: string, suffix: nat -> string, attempt: nat)
    requires Matches(base) && IsWord(suffix(attempt)) && |suffix(attempt)| == 4
    ensures Matches(Candidate(base, suffix, attempt))
    ensures |Candidate(base, suffix, attempt)| <= MAX_LENGTH <==> |base| <= if attempt == 0 then MAX_LENGTH else 55
  {
    SuffixFits(base, suffix(attempt));
  }

  /** The last resort of auth.service.ts has eight hex digits: only a base of at most 51 characters leaves room. */
  lemma LongerMatches(base: string, long: string)
    requires Matches(base) && IsWord(long) && |long| == 8
    ensures Matches(base + [DASH] + long)
    ensures |base + [DASH] + long| <= MAX_LENGTH <==> |base| <= 51
  {
    SuffixFits(base, long);
  }

  function Letters(n: nat): string {
    seq(n, _ => 'a')
  }

  /**
   * A name of 60 letters is a slug whose second candidate the API would refuse; one of 55 letters fits with a
   * suffix, but not with the last resort.
   */
  lemma SuffixOverflows()
    ensures Matches(Letters(60)) && |Letters(60)| == MAX_LENGTH && |Candidate(Letters(60), _ => "0a1b", 1)| == 65
    ensures Matches(Letters(55)) && |Candidate(Letters(55), _ => "0a1b", 1)| == 60
             && |Letters(55) + [DASH] + "0a1b2c3d"| == 64
  {
    WordIsSlug(Letters(60));
    MatchesIff(Letters(60));
    WordIsSlug(Letters(55));
    MatchesIff(Letters(55));
  }
}
