/**
 * The escapers of markdownReport.js and htmlReport.js: chains of whole-string replacements,
 * each run over the output of the one before.
 */
module Escapers {
  import opened Prelude

  datatype Rule = Rule(from: char, to: string)

  type Table = seq<Rule>

  const BACKSLASH := '\\'

  const MARKDOWN: Table := [
    Rule('\\', ['\\', '\\']),
    Rule('&', ['&', 'a', 'm', 'p', ';']),
    Rule('<', ['&', 'l', 't', ';']),
    Rule('>', ['&', 'g', 't', ';']),
    Rule('`', ['\\', '`']),
    Rule('[', ['\\', '[']),
    Rule(']', ['\\', ']']),
    Rule('|', ['\\', '|']),
    Rule('*', ['\\', '*'])]

  const HTML: Table := [
    Rule('&', ['&', 'a', 'm', 'p', ';']),
    Rule('<', ['&', 'l', 't', ';']),
    Rule('>', ['&', 'g', 't', ';']),
    Rule('"', ['&', 'q', 'u', 'o', 't', ';']),
    Rule('\'', ['&', '#', '3', '9', ';'])]

  /** replace(/from/g, to) */
  function ReplaceAll(s: string, r: Rule): string {
    if s == [] then [] else (if s[0] == r.from then r.to else [s[0]]) + ReplaceAll(s[1..], r)
  }

  function Chain(table: Table, s: string): string {
    if table == [] then s
    else ReplaceAll(Chain(table[..|table| - 1], s), table[|table| - 1])
  }

  function EscapeMarkdown(s: string): string { Chain(MARKDOWN, s) }

  function EscapeHtml(s: string): string { Chain(HTML, s) }

  // ------------------------------------------------------------------ one pass

  predicate IsKey(table: Table, c: char) {
    exists r :: r in table && r.from == c
  }

  /** What one character becomes. */
  function Sub(table: Table, c: char): string {
    if table == [] then [c]
    else if table[|table| - 1].from == c then table[|table| - 1].to
    else Sub(table[..|table| - 1], c)
  }

  function OnePass(table: Table, s: string): string {
    if s == [] then [] else Sub(table, s[0]) + OnePass(table, s[1..])
  }

  /** No replacement is rewritten by a later one. */
  ghost predicate Layered(table: Table) {
    forall i, j :: 0 <= i < j < |table| ==> table[i].from != table[j].from && table[j].from !in table[i].to
  }

  lemma {:induction false} ReplaceAppend(s: string, t: string, r: Rule)
    ensures ReplaceAll(s + t, r) == ReplaceAll(s, r) + ReplaceAll(t, r)
  {
    if s == [] {
      assert s + t == t;
    } else {
      assert (s + t)[1..] == s[1..] + t;
      ReplaceAppend(s[1..], t, r);
      Assoc(if s[0] == r.from then r.to else [s[0]], ReplaceAll(s[1..], r), ReplaceAll(t, r));
    }
  }

  lemma {:induction false} ReplaceNothing(s: string, r: Rule)
    requires r.from !in s
    ensures ReplaceAll(s, r) == s
  {
    if s != [] {
      ReplaceNothing(s[1..], r);
      assert s == [s[0]] + s[1..];
    }
  }

  /** A character becomes itself or the output of a rule for it. */
  lemma {:induction false} SubIsRule(table: Table, c: char) returns (m: Option<Rule>)
    ensures m.Some? <==> IsKey(table, c)
    ensures m.Some? ==> m.value in table && m.value.from == c && Sub(table, c) == m.value.to
    ensures m.None? ==> Sub(table, c) == [c]
  {
    if table == [] {
      m := None;
    } else {
      var front, last := table[..|table| - 1], table[|table| - 1];
      assert table == front + [last];
      m := SubIsRule(front, c);
      if last.from == c {
        m := Some(last);
      }
    }
  }

  lemma SubThenReplace(table: Table, c: char)
    requires table != [] && Layered(table)
    ensures ReplaceAll(Sub(table[..|table| - 1], c), table[|table| - 1]) == Sub(table, c)
  {
    var front, last := table[..|table| - 1], table[|table| - 1];
    var m := SubIsRule(front, c);
    if c == last.from {
      assert !IsKey(front, c);
      assert ReplaceAll([c], last) == last.to + ReplaceAll([], last);
    } else {
      assert last.from !in Sub(front, c);
      ReplaceNothing(Sub(front, c), last);
    }
  }

  lemma {:induction false} PassThenReplace(table: Table, s: string)
    requires table != [] && Layered(table)
    ensures ReplaceAll(OnePass(table[..|table| - 1], s), table[|table| - 1]) == OnePass(table, s)
  {
    if s != [] {
      var front, last := table[..|table| - 1], table[|table| - 1];
      ReplaceAppend(Sub(front, s[0]), OnePass(front, s[1..]), last);
      SubThenReplace(table, s[0]);
      PassThenReplace(table, s[1..]);
    }
  }

  lemma {:induction false} NoRules(s: string)
    ensures OnePass([], s) == s
  {
    if s != [] {
      NoRules(s[1..]);
      assert s == [s[0]] + s[1..];
    }
  }

  /** A layered chain of global replacements is one pass over the characters. */
  lemma {:induction false} ChainIsOnePass(table: Table, s: string)
    requires Layered(table)
    ensures Chain(table, s) == OnePass(table, s)
  {
    if table == [] {
      NoRules(s);
    } else {
      ChainIsOnePass(table[..|table| - 1], s);
      PassThenReplace(table, s);
    }
  }

  // ------------------------------------------------------------------ the way back

  /** The rule whose output begins the string. */
  function Match(table: Table, s: string): (m: Option<Rule>)
    ensures m.Some? ==> m.value in table && m.value.to <= s
    ensures m.None? ==> forall r :: r in table ==> !(r.to <= s)
  {
    if table == [] then None
    else if table[|table| - 1].to <= s then Some(table[|table| - 1])
    else
      assert table == table[..|table| - 1] + [table[|table| - 1]];
      Match(table[..|table| - 1], s)
  }

  /** Outputs begin with an escaped character and are told apart by the next one. */
  ghost predicate Decodable(table: Table) {
    && (forall i :: 0 <= i < |table| ==> |table[i].to| >= 2 && IsKey(table, table[i].to[0]))
    && (forall i, j :: 0 <= i < j < |table| ==> table[i].to[1] != table[j].to[1])
  }

  ghost function Unescape(table: Table, s: string): string
    requires Decodable(table)
    decreases |s|
  {
    if s == [] then []
    else match Match(table, s)
         case Some(r) => [r.from] + Unescape(table, s[|r.to|..])
         case None => [s[0]] + Unescape(table, s[1..])
  }

  /** Every character with a rule occurs only inside the output of some rule. */
  ghost predicate NothingBare(table: Table, s: string)
    requires Decodable(table)
    decreases |s|
  {
    s == [] ||
    match Match(table, s)
    case Some(r) => NothingBare(table, s[|r.to|..])
    case None => !IsKey(table, s[0]) && NothingBare(table, s[1..])
  }

  lemma MatchRule(table: Table, r: Rule, rest: string)
    requires Decodable(table) && r in table
    ensures Match(table, r.to + rest) == Some(r)
  {
    var s := r.to + rest;
    assert r.to <= s;
    var q := Match(table, s).value;
    assert q.to[1] == s[1] == r.to[1];
  }

  lemma MatchPlain(table: Table, c: char, rest: string)
    requires Decodable(table) && !IsKey(table, c)
    ensures Match(table, [c] + rest) == None
  {
    assert ([c] + rest)[0] == c;
  }

  lemma DecodeRule(table: Table, r: Rule, rest: string)
    requires Decodable(table) && r in table
    ensures Unescape(table, r.to + rest) == [r.from] + Unescape(table, rest)
    ensures NothingBare(table, r.to + rest) == NothingBare(table, rest)
  {
    MatchRule(table, r, rest);
    assert (r.to + rest)[|r.to|..] == rest;
  }

  lemma DecodePlain(table: Table, c: char, rest: string)
    requires Decodable(table) && !IsKey(table, c)
    ensures Unescape(table, [c] + rest) == [c] + Unescape(table, rest)
    ensures NothingBare(table, [c] + rest) == NothingBare(table, rest)
  {
    MatchPlain(table, c, rest);
    assert ([c] + rest)[1..] == rest;
  }

  /** One pass is undone, and its output holds no bare special character. */
  lemma {:induction false} PassInverse(table: Table, s: string)
    requires Decodable(table)
    ensures Unescape(table, OnePass(table, s)) == s && NothingBare(table, OnePass(table, s))
  {
    if s != [] {
      var c, rest := s[0], OnePass(table, s[1..]);
      PassInverse(table, s[1..]);
      var m := SubIsRule(table, c);
      if m.Some? {
        DecodeRule(table, m.value, rest);
      } else {
        DecodePlain(table, c, rest);
      }
      TakeDrop([c], s);
    }
  }

  lemma PassAppend(table: Table, c: char, s: string)
    ensures OnePass(table, [c] + s) == Sub(table, c) + OnePass(table, s)
  {
    assert ([c] + s)[1..] == s;
  }

  /** The strings without bare special characters are exactly the outputs. */
  lemma {:induction false} PassImage(table: Table, t: string)
    requires Decodable(table) && Layered(table) && NothingBare(table, t)
    ensures OnePass(table, Unescape(table, t)) == t
    decreases |t|
  {
    if t != [] {
      var m := Match(table, t);
      if m.Some? {
        PassImage(table, t[|m.value.to|..]);
        ImageRule(table, m.value, t);
      } else {
        PassImage(table, t[1..]);
        ImagePlain(table, t);
      }
    }
  }

  lemma TakeDrop(w: string, t: string)
    requires w <= t
    ensures t == w + t[|w|..]
  {
  }

  lemma ImageRule(table: Table, r: Rule, t: string)
    requires Decodable(table) && Layered(table) && r in table && r.to <= t
    requires var rest := t[|r.to|..]; OnePass(table, Unescape(table, rest)) == rest
    ensures OnePass(table, Unescape(table, t)) == t
  {
    var rest := t[|r.to|..];
    TakeDrop(r.to, t);
    DecodeRule(table, r, rest);
    OneRule(table, r);
    PassAppend(table, r.from, Unescape(table, rest));
  }

  lemma ImagePlain(table: Table, t: string)
    requires Decodable(table) && t != [] && !IsKey(table, t[0])
    requires OnePass(table, Unescape(table, t[1..])) == t[1..]
    ensures OnePass(table, Unescape(table, t)) == t
  {
    TakeDrop([t[0]], t);
    DecodePlain(table, t[0], t[1..]);
    var m := SubIsRule(table, t[0]);
    PassAppend(table, t[0], Unescape(table, t[1..]));
  }

  lemma OneRule(table: Table, r: Rule)
    requires Layered(table) && r in table
    ensures Sub(table, r.from) == r.to
  {
    assert IsKey(table, r.from);
    var m := SubIsRule(table, r.from);
  }

  // ------------------------------------------------------------------ the two escapers

  lemma MarkdownPair(i: nat, j: nat)
    requires i < j < |MARKDOWN|
    ensures MARKDOWN[i].from != MARKDOWN[j].from && MARKDOWN[j].from !in MARKDOWN[i].to
    ensures |MARKDOWN[i].to| >= 2 && |MARKDOWN[j].to| >= 2 && MARKDOWN[i].to[1] != MARKDOWN[j].to[1]
  {
  }

  lemma MarkdownHead(i: nat)
    requires i < |MARKDOWN|
    ensures |MARKDOWN[i].to| >= 2 && IsKey(MARKDOWN, MARKDOWN[i].to[0])
  {
    assert MARKDOWN[0] in MARKDOWN && MARKDOWN[1] in MARKDOWN;
  }

  lemma MarkdownTable()
    ensures Layered(MARKDOWN) && Decodable(MARKDOWN)
  {
    forall i | 0 <= i < |MARKDOWN| ensures |MARKDOWN[i].to| >= 2 && IsKey(MARKDOWN, MARKDOWN[i].to[0]) {
      MarkdownHead(i);
    }
    forall i, j | 0 <= i < j < |MARKDOWN|
      ensures MARKDOWN[i].from != MARKDOWN[j].from && MARKDOWN[j].from !in MARKDOWN[i].to
      ensures MARKDOWN[i].to[1] != MARKDOWN[j].to[1]
    {
      MarkdownPair(i, j);
    }
  }

  lemma HtmlPair(i: nat, j: nat)
    requires i < j < |HTML|
    ensures HTML[i].from != HTML[j].from && HTML[j].from !in HTML[i].to
    ensures |HTML[i].to| >= 2 && |HTML[j].to| >= 2 && HTML[i].to[1] != HTML[j].to[1]
  {
  }

  lemma HtmlHead(i: nat)
    requires i < |HTML|
    ensures |HTML[i].to| >= 2 && HTML[i].to[0] == HTML[0].from
  {
  }

  lemma HtmlTable()
    ensures Layered(HTML) && Decodable(HTML)
  {
    forall i | 0 <= i < |HTML| ensures |HTML[i].to| >= 2 && IsKey(HTML, HTML[i].to[0]) {
      HtmlHead(i);
      assert HTML[0] in HTML;
    }
    forall i, j | 0 <= i < j < |HTML|
      ensures HTML[i].from != HTML[j].from && HTML[j].from !in HTML[i].to
      ensures HTML[i].to[1] != HTML[j].to[1]
    {
      HtmlPair(i, j);
    }
  }

  /** The Markdown chain is one pass, has a left inverse, and its outputs are the strings with nothing bare. */
  lemma MarkdownRoundTrip(s: string)
    ensures Decodable(MARKDOWN)
    ensures EscapeMarkdown(s) == OnePass(MARKDOWN, s)
    ensures Unescape(MARKDOWN, EscapeMarkdown(s)) == s
    ensures NothingBare(MARKDOWN, EscapeMarkdown(s))
    ensures NothingBare(MARKDOWN, s) ==> EscapeMarkdown(Unescape(MARKDOWN, s)) == s
  {
    MarkdownTable();
    ChainIsOnePass(MARKDOWN, s);
    PassInverse(MARKDOWN, s);
    if NothingBare(MARKDOWN, s) {
      PassImage(MARKDOWN, s);
      ChainIsOnePass(MARKDOWN, Unescape(MARKDOWN, s));
    }
  }

  /** The same of the HTML chain. */
  lemma HtmlRoundTrip(s: string)
    ensures Decodable(HTML)
    ensures EscapeHtml(s) == OnePass(HTML, s)
    ensures Unescape(HTML, EscapeHtml(s)) == s
    ensures NothingBare(HTML, EscapeHtml(s))
    ensures NothingBare(HTML, s) ==> EscapeHtml(Unescape(HTML, s)) == s
  {
    HtmlTable();
    ChainIsOnePass(HTML, s);
    PassInverse(HTML, s);
    if NothingBare(HTML, s) {
      PassImage(HTML, s);
      ChainIsOnePass(HTML, Unescape(HTML, s));
    }
  }

  /** Two texts with the same escaped form are the same text. */
  lemma EscapersAreInjective(a: string, b: string)
    ensures EscapeMarkdown(a) == EscapeMarkdown(b) ==> a == b
    ensures EscapeHtml(a) == EscapeHtml(b) ==> a == b
  {
    MarkdownRoundTrip(a);
    MarkdownRoundTrip(b);
    HtmlRoundTrip(a);
    HtmlRoundTrip(b);
  }

  // ------------------------------------------------------------------ what cannot appear

  /** A character with a rule, and in no output, is gone after the pass. */
  lemma {:induction false} Absent(table: Table, k: nat, s: string)
    requires k < |table| && forall i :: 0 <= i < |table| ==> table[k].from !in table[i].to
    ensures table[k].from !in OnePass(table, s)
  {
    if s != [] {
      var m := SubIsRule(table, s[0]);
      assert table[k] in table;
      Absent(table, k, s[1..]);
    }
  }

  lemma HtmlAbsent(k: nat, i: nat)
    requires 1 <= k < |HTML| && i < |HTML|
    ensures HTML[k].from !in HTML[i].to
  {
  }

  lemma HtmlGone(s: string, k: nat)
    requires 1 <= k < |HTML|
    ensures HTML[k].from !in EscapeHtml(s)
  {
    HtmlRoundTrip(s);
    forall i | 0 <= i < |HTML| ensures HTML[k].from !in HTML[i].to {
      HtmlAbsent(k, i);
    }
    Absent(HTML, k, s);
  }

  /** No tag and no attribute value can be opened or closed by escaped text. */
  lemma HtmlHasNoMarkup(s: string)
    ensures '<' !in EscapeHtml(s) && '>' !in EscapeHtml(s) && '"' !in EscapeHtml(s) && '\'' !in EscapeHtml(s)
  {
    HtmlGone(s, 1);
    HtmlGone(s, 2);
    HtmlGone(s, 3);
    HtmlGone(s, 4);
  }

  lemma MarkdownAbsent(k: nat, i: nat)
    requires 2 <= k <= 3 && i < |MARKDOWN|
    ensures MARKDOWN[k].from !in MARKDOWN[i].to
  {
  }

  lemma MarkdownGone(s: string, k: nat)
    requires 2 <= k <= 3
    ensures MARKDOWN[k].from !in EscapeMarkdown(s)
  {
    MarkdownRoundTrip(s);
    forall i | 0 <= i < |MARKDOWN| ensures MARKDOWN[k].from !in MARKDOWN[i].to {
      MarkdownAbsent(k, i);
    }
    Absent(MARKDOWN, k, s);
  }

  /** Escaped Markdown holds no embedded HTML. */
  lemma MarkdownHasNoTags(s: string)
    ensures '<' !in EscapeMarkdown(s) && '>' !in EscapeMarkdown(s)
  {
    MarkdownGone(s, 2);
    MarkdownGone(s, 3);
  }

  /** The backslashes directly before position `i`. */
  function Slashes(s: string, i: nat): nat
    requires i <= |s|
  {
    if i == 0 || s[i - 1] != BACKSLASH then 0 else 1 + Slashes(s, i - 1)
  }

  predicate IsInline(c: char) {
    c in ['`', '[', ']', '|', '*']
  }

  /** Every Markdown delimiter is escaped: an odd number of backslashes stands before it. */
  ghost predicate Delimited(s: string) {
    forall i :: 0 <= i < |s| && IsInline(s[i]) ==> Slashes(s, i) % 2 == 1
  }

  lemma {:induction false} SlashesShift(w: string, rest: string, i: nat)
    requires i <= |rest| && Slashes(w, |w|) % 2 == 0
    ensures Slashes(w + rest, |w| + i) % 2 == Slashes(rest, i) % 2
  {
    if i == 0 {
      SlashesKeep(w, rest, |w|);
    } else {
      SlashesShift(w, rest, i - 1);
    }
  }

  lemma {:induction false} SlashesKeep(w: string, rest: string, i: nat)
    requires i <= |w|
    ensures Slashes(w + rest, i) == Slashes(w, i)
  {
    if i > 0 {
      SlashesKeep(w, rest, i - 1);
    }
  }

  lemma DelimitedAppend(w: string, rest: string)
    requires Delimited(w) && Slashes(w, |w|) % 2 == 0 && Delimited(rest)
    ensures Delimited(w + rest)
  {
    var s := w + rest;
    forall i | 0 <= i < |s| && IsInline(s[i]) ensures Slashes(s, i) % 2 == 1 {
      if i < |w| {
        SlashesKeep(w, rest, i);
      } else {
        SlashesShift(w, rest, i - |w|);
      }
    }
  }

  /** A rule writes an entity, which has no delimiter and no backslash, or a backslash and the character. */
  lemma MarkdownShape(i: nat)
    requires i < |MARKDOWN|
    ensures if 1 <= i <= 3 then
              |MARKDOWN[i].to| > 0 && forall c :: c in MARKDOWN[i].to ==> !IsInline(c) && c != BACKSLASH
            else MARKDOWN[i].to == [BACKSLASH, MARKDOWN[i].from]
  {
  }

  lemma PairDelimited(c: char)
    ensures Delimited([BACKSLASH, c]) && Slashes([BACKSLASH, c], 2) % 2 == 0
  {
    var w := [BACKSLASH, c];
    assert Slashes(w, 0) == 0;
    assert Slashes(w, 1) == 1;
  }

  /** Each output leaves no backslash open. */
  lemma MarkdownRuleDelimited(i: nat)
    requires i < |MARKDOWN|
    ensures Delimited(MARKDOWN[i].to) && Slashes(MARKDOWN[i].to, |MARKDOWN[i].to|) % 2 == 0
  {
    MarkdownShape(i);
    PairDelimited(MARKDOWN[i].from);
  }

  lemma MarkdownKeys(c: char)
    requires IsInline(c) || c == BACKSLASH
    ensures IsKey(MARKDOWN, c)
  {
    assert forall i :: 0 <= i < |MARKDOWN| ==> MARKDOWN[i] in MARKDOWN;
    assert MARKDOWN[0].from == BACKSLASH && MARKDOWN[4].from == '`' && MARKDOWN[5].from == '['
        && MARKDOWN[6].from == ']';
    assert MARKDOWN[7].from == '|' && MARKDOWN[8].from == '*';
  }

  lemma MarkdownSubDelimited(c: char)
    ensures Delimited(Sub(MARKDOWN, c)) && Slashes(Sub(MARKDOWN, c), |Sub(MARKDOWN, c)|) % 2 == 0
  {
    var m := SubIsRule(MARKDOWN, c);
    if m.Some? {
      var i :| 0 <= i < |MARKDOWN| && MARKDOWN[i] == m.value;
      MarkdownRuleDelimited(i);
    } else if IsInline(c) || c == BACKSLASH {
      MarkdownKeys(c);
    }
  }

  lemma {:induction false} PassDelimited(s: string)
    ensures Delimited(OnePass(MARKDOWN, s))
  {
    if s != [] {
      MarkdownSubDelimited(s[0]);
      PassDelimited(s[1..]);
      DelimitedAppend(Sub(MARKDOWN, s[0]), OnePass(MARKDOWN, s[1..]));
    }
  }

  lemma MarkdownIsDelimited(s: string)
    ensures Delimited(EscapeMarkdown(s))
  {
    MarkdownRoundTrip(s);
    PassDelimited(s);
  }

  // ------------------------------------------------------------------ character by character

  lemma {:induction false} PassJoins(table: Table, s: string, t: string)
    ensures OnePass(table, s + t) == OnePass(table, s) + OnePass(table, t)
  {
    if s == [] {
      assert s + t == t;
    } else {
      assert (s + t)[1..] == s[1..] + t;
      PassJoins(table, s[1..], t);
      Assoc(Sub(table, s[0]), OnePass(table, s[1..]), OnePass(table, t));
    }
  }

  lemma PassOne(table: Table, c: char)
    ensures OnePass(table, [c]) == Sub(table, c)
  {
    assert OnePass(table, [c]) == Sub(table, c) + OnePass(table, []);
  }

  /** Escaping works on each character alone. */
  lemma EscapersJoin(s: string, t: string)
    ensures EscapeHtml(s + t) == EscapeHtml(s) + EscapeHtml(t)
    ensures EscapeMarkdown(s + t) == EscapeMarkdown(s) + EscapeMarkdown(t)
  {
    HtmlTable();
    ChainIsOnePass(HTML, s);
    ChainIsOnePass(HTML, t);
    ChainIsOnePass(HTML, s + t);
    PassJoins(HTML, s, t);
    MarkdownTable();
    ChainIsOnePass(MARKDOWN, s);
    ChainIsOnePass(MARKDOWN, t);
    ChainIsOnePass(MARKDOWN, s + t);
    PassJoins(MARKDOWN, s, t);
  }

  /** What a layered chain makes of a character with a rule. */
  lemma ChainAt(table: Table, k: nat)
    requires Layered(table) && k < |table|
    ensures Chain(table, [table[k].from]) == table[k].to
  {
    OneRule(table, table[k]);
    PassOne(table, table[k].from);
    ChainIsOnePass(table, [table[k].from]);
  }

  lemma ChainPlain(table: Table, c: char)
    requires Layered(table) && forall k :: 0 <= k < |table| ==> table[k].from != c
    ensures Chain(table, [c]) == [c]
  {
    var m := SubIsRule(table, c);
    PassOne(table, c);
    ChainIsOnePass(table, [c]);
  }

  lemma HtmlRules()
    ensures |HTML| == 5
    ensures HTML[0] == Rule('&', "&amp;") && HTML[1] == Rule('<', "&lt;") && HTML[2] == Rule('>', "&gt;")
    ensures HTML[3] == Rule('"', "&quot;") && HTML[4] == Rule('\'', "&#39;")
  {
  }

  lemma HtmlAt(k: nat)
    requires k < |HTML|
    ensures EscapeHtml([HTML[k].from]) == HTML[k].to
  {
    HtmlTable();
    ChainAt(HTML, k);
  }

  lemma HtmlFrom(k: nat)
    requires k < |HTML|
    ensures HTML[k].from in ['&', '<', '>', '"', '\'']
  {
  }

  lemma HtmlPlain(c: char)
    requires c !in ['&', '<', '>', '"', '\'']
    ensures EscapeHtml([c]) == [c]
  {
    HtmlTable();
    forall k | 0 <= k < |HTML| ensures HTML[k].from != c {
      HtmlFrom(k);
    }
    ChainPlain(HTML, c);
  }

  /** What HTML escaping makes of one character: one of five entities, or the character. */
  lemma HtmlCharacters(c: char)
    ensures EscapeHtml(['&']) == "&amp;" && EscapeHtml(['<']) == "&lt;" && EscapeHtml(['>']) == "&gt;"
    ensures EscapeHtml(['"']) == "&quot;" && EscapeHtml(['\'']) == "&#39;"
    ensures c !in ['&', '<', '>', '"', '\''] ==> EscapeHtml([c]) == [c]
  {
    HtmlRules();
    HtmlAt(0);
    HtmlAt(1);
    HtmlAt(2);
    HtmlAt(3);
    HtmlAt(4);
    if c !in ['&', '<', '>', '"', '\''] {
      HtmlPlain(c);
    }
  }

  lemma MarkdownEntities()
    ensures MARKDOWN[1] == Rule('&', "&amp;") && MARKDOWN[2] == Rule('<', "&lt;") && MARKDOWN[3] == Rule('>', "&gt;")
  {
  }

  lemma MarkdownAt(k: nat)
    requires k < |MARKDOWN|
    ensures EscapeMarkdown([MARKDOWN[k].from]) == MARKDOWN[k].to
  {
    MarkdownTable();
    ChainAt(MARKDOWN, k);
  }

  lemma MarkdownBackslash(k: nat)
    requires k < |MARKDOWN| && !(1 <= k <= 3)
    ensures EscapeMarkdown([MARKDOWN[k].from]) == ['\\', MARKDOWN[k].from]
  {
    MarkdownAt(k);
    MarkdownShape(k);
  }

  lemma MarkdownFrom(k: nat)
    requires k < |MARKDOWN|
    ensures MARKDOWN[k].from in ['\\', '&', '<', '>', '`', '[', ']', '|', '*']
  {
  }

  lemma MarkdownPlain(c: char)
    requires c !in ['\\', '&', '<', '>', '`', '[', ']', '|', '*']
    ensures EscapeMarkdown([c]) == [c]
  {
    MarkdownTable();
    forall k | 0 <= k < |MARKDOWN| ensures MARKDOWN[k].from != c {
      MarkdownFrom(k);
    }
    ChainPlain(MARKDOWN, c);
  }

  lemma MarkdownDelimiter(c: char) returns (k: nat)
    requires c in ['\\', '`', '[', ']', '|', '*']
    ensures k < |MARKDOWN| && !(1 <= k <= 3) && MARKDOWN[k].from == c
  {
    k := if c == '\\' then 0 else if c == '`' then 4 else if c == '[' then 5 else if c == ']' then 6 else if c == '|'
        then 7 else 8;
  }

  /** What Markdown escaping makes of one character: one of three entities, a backslash before it, or the character. */
  lemma MarkdownCharacters(c: char)
    ensures EscapeMarkdown(['&']) == "&amp;" && EscapeMarkdown(['<']) == "&lt;" && EscapeMarkdown(['>']) == "&gt;"
    ensures c in ['\\', '`', '[', ']', '|', '*'] ==> EscapeMarkdown([c]) == ['\\', c]
    ensures c !in ['\\', '&', '<', '>', '`', '[', ']', '|', '*'] ==> EscapeMarkdown([c]) == [c]
  {
    MarkdownEntities();
    MarkdownAt(1);
    MarkdownAt(2);
    MarkdownAt(3);
    if c in ['\\', '`', '[', ']', '|', '*'] {
      var k := MarkdownDelimiter(c);
      MarkdownBackslash(k);
    }
    if c !in ['\\', '&', '<', '>', '`', '[', ']', '|', '*'] {
      MarkdownPlain(c);
    }
  }
}
