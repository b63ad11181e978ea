/** Blanking quoted literals in SQL text (tools/cherrydb/validator.py). */
module LiteralScanner {
  import opened Options

  // ---- The declarative lexer ----

  predicate IsQuote(c: char) { c == '\'' || c == '"' }

  function Occurrences(s: string, c: char): nat {
    if s == "" then 0 else Occurrences(s[..|s| - 1], c) + if s[|s| - 1] == c then 1 else 0
  }

  /**
    j closes the literal opened by the quote at i: a quote of the same kind, not followed by
    another, and the odd one among those since the opening (the others pair up as escapes).
   */
  predicate Closes(s: string, i: nat, j: nat)
    requires i < |s|
  {
    i < j < |s| && s[j] == s[i] && (j + 1 < |s| ==> s[j + 1] != s[i]) && Occurrences(s[i + 1..j + 1], s[i]) % 2 == 1
  }

  /** Just after the first closing quote from j on, or the end of the text. */
  function QuoteEnd(s: string, i: nat, j: nat): (e: nat)
    requires i < j <= |s|
    ensures j <= e <= |s|
    ensures (e == |s| && NoneCloses(s, i, j, e)) || (e > j && Closes(s, i, e - 1) && NoneCloses(s, i, j, e - 1))
    decreases |s| - j
  {
    if j == |s| then j else if Closes(s, i, j) then j + 1 else QuoteEnd(s, i, j + 1)
  }

  predicate NoneCloses(s: string, i: nat, lo: nat, hi: nat)
    requires i < |s|
  {
    forall j | lo <= j < hi :: !Closes(s, i, j)
  }

  predicate IsLetter(c: char) { 'A' <= c <= 'Z' || 'a' <= c <= 'z' || c == '_' }

  predicate IsWordChar(c: char) { IsLetter(c) || '0' <= c <= '9' }

  /** `\$[A-Za-z_][A-Za-z0-9_]*\$|\$\$` */
  predicate IsTag(t: string) {
    && |t| >= 2 && t[0] == '$' && t[|t| - 1] == '$'
    && (forall k | 1 <= k < |t| - 1 :: IsWordChar(t[k]))
    && (|t| > 2 ==> IsLetter(t[1]))
  }

  /** A tag starts at i and is n characters long. */
  predicate TagAt(s: string, i: nat, n: nat) { i + n <= |s| && IsTag(s[i..i + n]) }

  predicate OccursAt(s: string, t: string, p: nat) { p + |t| <= |s| && s[p..p + |t|] == t }

  /** `s.find(t, p)` */
  function Find(s: string, t: string, p: nat): (r: Option<nat>)
    ensures r.Some? ==> p <= r.value && OccursAt(s, t, r.value)
    ensures r.Some? ==> forall q | p <= q < r.value :: !OccursAt(s, t, q)
    ensures r.None? ==> forall q | p <= q :: !OccursAt(s, t, q)
    decreases |s| - p
  {
    if p + |t| > |s| then None else if OccursAt(s, t, p) then Some(p) else Find(s, t, p + 1)
  }

  /** The length of the tag at i: up to the next dollar sign, if what lies between allows it. */
  function TagLength(s: string, i: nat, n: nat): (r: Option<nat>)
    requires n >= 1 && i + n <= |s| && s[i] == '$' && forall k | i < k < i + n :: s[k] != '$'
    ensures r.Some? ==> TagAt(s, i, r.value)
    ensures r.None? ==> forall m | m > n :: !TagAt(s, i, m)
    decreases |s| - i - n
  {
    if i + n == |s| then None
    else if s[i + n] == '$' then
      (if IsTag(s[i..i + n + 1]) then Some(n + 1) else LongerIsNoTag(s, i, n); None)
    else if !IsWordChar(s[i + n]) then NoTagBeyond(s, i, n); None
    else NotYetTag(s, i, n); TagLength(s, i, n + 1)
  }

  lemma LongerIsNoTag(s: string, i: nat, n: nat)
    requires n >= 1 && i + n < |s| && s[i + n] == '$' && !IsTag(s[i..i + n + 1])
    ensures forall m | m > n :: !TagAt(s, i, m)
  {
    forall m | m > n ensures !TagAt(s, i, m) {
      if m > n + 1 && i + m <= |s| { assert s[i..i + m][n] == '$'; }
    }
  }

  lemma NoTagBeyond(s: string, i: nat, n: nat)
    requires n >= 1 && i + n < |s| && s[i + n] != '$' && !IsWordChar(s[i + n])
    ensures forall m | m > n :: !TagAt(s, i, m)
  {
    forall m | m > n ensures !TagAt(s, i, m) {
      if i + m <= |s| { assert s[i..i + m][n] == s[i + n]; }
    }
  }

  lemma NotYetTag(s: string, i: nat, n: nat)
    requires n >= 1 && i + n < |s| && s[i + n] != '$'
    ensures !TagAt(s, i, n + 1)
  {
    assert s[i..i + n + 1][n] == s[i + n];
  }

  lemma NoTagHere(s: string, i: nat)
    requires i < |s| && s[i] != '$'
    ensures forall n | n >= 2 :: !TagAt(s, i, n)
  {
    forall n | n >= 2 ensures !TagAt(s, i, n) {
      if i + n <= |s| { assert s[i..i + n][0] == s[i]; }
    }
  }

  /** The tag starting at i, if there is one. */
  function Tag(s: string, i: nat): (r: Option<string>)
    requires i < |s|
    ensures r.Some? ==> TagAt(s, i, |r.value|) && r.value == s[i..i + |r.value|]
    ensures r.None? ==> forall n | n >= 2 :: !TagAt(s, i, n)
  {
    if s[i] != '$' then
      NoTagHere(s, i);
      None
    else
      var n := TagLength(s, i, 1);
      if n.None? then None else Some(s[i..i + n.value])
  }

  /** Just after the literal that starts at i, if one does. */
  function LiteralEnd(s: string, i: nat): (e: Option<nat>)
    requires i < |s|
    ensures e.Some? ==> i < e.value <= |s|
  {
    if IsQuote(s[i]) then Some(QuoteEnd(s, i, i + 1))
    else
      var tag := Tag(s, i);
      if tag.None? then None
      else
        var close := Find(s, tag.value, i + |tag.value|);
        if close.None? then None else Some(close.value + |tag.value|)
  }

  /** Reading from position `from`, k lies inside a literal. */
  predicate Inside(s: string, from: nat, k: nat)
    decreases |s| - from
  {
    from < |s|
    && (match LiteralEnd(s, from)
        case Some(e) => from <= k < e || Inside(s, e, k)
        case None => Inside(s, from + 1, k))
  }

  function Blank(s: string): string {
    seq(|s|, k requires 0 <= k < |s| => if Inside(s, 0, k) then ' ' else s[k])
  }

  // ---- The scanner ----

  lemma CountsPair(s: string, i: nat, j: nat)
    requires i < j < |s|
    ensures Occurrences(s[i + 1..j + 1], s[i]) == Occurrences(s[i + 1..j], s[i]) + if s[j] == s[i] then 1 else 0
  {
    var t := s[i + 1..j + 1];
    assert t[..|t| - 1] == s[i + 1..j];
  }

  function Spaces(n: nat): string { seq(n, _ => ' ') }

  /** The text before, and n spaces. */
  predicate Padded(chars: string, before: string, n: nat) {
    && |chars| == |before| + n
    && (forall k | 0 <= k < |before| :: chars[k] == before[k])
    && (forall k | |before| <= k < |chars| :: chars[k] == ' ')
  }

  lemma OneMoreSpace(before: string, chars: string, n: nat)
    requires Padded(chars, before, n)
    ensures Padded(chars + [' '], before, n + 1)
  {
  }

  /** The quotes from i + 1 up to j come in pairs. */
  predicate Paired(s: string, i: nat, j: nat) { i < j <= |s| && Occurrences(s[i + 1..j], s[i]) % 2 == 0 }

  lemma PassesCharacter(s: string, i: nat, j: nat)
    requires Paired(s, i, j) && j < |s| && s[j] != s[i]
    ensures Paired(s, i, j + 1) && QuoteEnd(s, i, j) == QuoteEnd(s, i, j + 1)
  {
    CountsPair(s, i, j);
  }

  lemma PassesPair(s: string, i: nat, j: nat)
    requires Paired(s, i, j) && j + 1 < |s| && s[j] == s[i] && s[j + 1] == s[i]
    ensures Paired(s, i, j + 2) && QuoteEnd(s, i, j) == QuoteEnd(s, i, j + 2)
  {
    CountsPair(s, i, j);
    CountsPair(s, i, j + 1);
    assert QuoteEnd(s, i, j) == QuoteEnd(s, i, j + 1);
  }

  lemma ClosesHere(s: string, i: nat, j: nat)
    requires Paired(s, i, j) && j < |s| && s[j] == s[i] && (j + 1 < |s| ==> s[j + 1] != s[i])
    ensures QuoteEnd(s, i, j) == j + 1
  {
    CountsPair(s, i, j);
  }

  /** The inner loops: from the quote at `start` to just after its closing quote. */
  method ScanQuoted(sql: string, start: nat, before: string) returns (chars: string, index: nat)
    requires start < |sql|
    ensures index == QuoteEnd(sql, start, start + 1)
    ensures Padded(chars, before, index - start)
  {
    var quote := sql[start];
    chars := before + [' '];
    index := start + 1;
    while index < |sql|
      invariant Paired(sql, start, index)
      invariant QuoteEnd(sql, start, start + 1) == QuoteEnd(sql, start, index)
      invariant Padded(chars, before, index - start)
    {
      OneMoreSpace(before, chars, index - start);
      if sql[index] == quote {
        chars := chars + [' '];
        index := index + 1;
        if index < |sql| && sql[index] == quote {
          PassesPair(sql, start, index - 1);
          OneMoreSpace(before, chars, index - start);
          chars := chars + [' '];
          index := index + 1;
          continue;
        }
        ClosesHere(sql, start, index - 1);
        break;
      }
      PassesCharacter(sql, start, index);
      chars := chars + [' '];
      index := index + 1;
    }
  }

  /** Characters read before `index` are final, and lexing goes on from `index`. */
  predicate ScannedTo(sql: string, index: nat, chars: string) {
    && index <= |sql| && |chars| == index
    && (forall k | 0 <= k < index :: chars[k] == if Inside(sql, 0, k) then ' ' else sql[k])
    && (forall k | index <= k < |sql| :: Inside(sql, 0, k) == Inside(sql, index, k))
  }

  lemma {:induction false} NotBefore(s: string, from: nat, k: nat)
    requires k < from
    ensures !Inside(s, from, k)
    decreases |s| - from
  {
    if from < |s| {
      match LiteralEnd(s, from)
      case Some(e) => NotBefore(s, e, k);
      case None => NotBefore(s, from + 1, k);
    }
  }

  lemma ScannedCharacter(sql: string, index: nat, chars: string)
    requires ScannedTo(sql, index, chars) && index < |sql| && LiteralEnd(sql, index).None?
    ensures ScannedTo(sql, index + 1, chars + [sql[index]])
  {
    NotBefore(sql, index + 1, index);
    forall k | index < k < |sql| ensures Inside(sql, 0, k) == Inside(sql, index + 1, k) {
      assert Inside(sql, 0, k) == Inside(sql, index, k);
    }
  }

  /** The dollar branch: just after the second occurrence of the tag at `start`, if there is one. */
  method ScanDollar(sql: string, start: nat) returns (index: Option<nat>)
    requires start < |sql| && sql[start] == '$'
    ensures index == LiteralEnd(sql, start)
  {
    var tag := Tag(sql, start);
    if tag.Some? {
      var end := Find(sql, tag.value, start + |tag.value|);
      if end.Some? {
        return Some(end.value + |tag.value|);
      }
    }
    return None;
  }

  lemma ScannedLiteral(sql: string, index: nat, before: string, chars: string, e: nat)
    requires ScannedTo(sql, index, before) && index < |sql| && LiteralEnd(sql, index) == Some(e)
    requires Padded(chars, before, e - index)
    ensures ScannedTo(sql, e, chars)
  {
    forall k | index <= k < |sql| ensures Inside(sql, 0, k) <==> k < e || Inside(sql, e, k) {
      assert Inside(sql, 0, k) == Inside(sql, index, k);
    }
    forall k | 0 <= k < e ensures chars[k] == if Inside(sql, 0, k) then ' ' else sql[k] {
      if k < index { assert chars[k] == before[k]; }
    }
    forall k | e <= k < |sql| ensures Inside(sql, 0, k) == Inside(sql, e, k) {}
  }

  lemma AppendedSpaces(before: string, n: nat)
    ensures Padded(before + Spaces(n), before, n)
  {
  }

  lemma AllScanned(sql: string, chars: string)
    requires ScannedTo(sql, |sql|, chars)
    ensures chars == Blank(sql)
  {
  }

  method RemoveQuotedLiterals(sql: string) returns (r: string)
    ensures r == Blank(sql)
  {
    var chars: string := "";
    var index := 0;
    while index < |sql|
      invariant ScannedTo(sql, index, chars)
    {
      if IsQuote(sql[index]) {
        ghost var start, before := index, chars;
        chars, index := ScanQuoted(sql, index, chars);
        ScannedLiteral(sql, start, before, chars, index);
        continue;
      }
      if sql[index] == '$' {
        var end := ScanDollar(sql, index);
        if end.Some? {
          AppendedSpaces(chars, end.value - index);
          ScannedLiteral(sql, index, chars, chars + Spaces(end.value - index), end.value);
          chars := chars + Spaces(end.value - index);
          index := end.value;
          continue;
        }
      }
      ScannedCharacter(sql, index, chars);
      chars := chars + [sql[index]];
      index := index + 1;
    }
    AllScanned(sql, chars);
    return chars;
  }

  // ---- The theorems ----

  /** A position outside every literal starts none. */
  lemma {:induction false} OutsideStartsNone(s: string, from: nat, k: nat)
    requires from <= k < |s| && !Inside(s, from, k)
    ensures LiteralEnd(s, k).None?
    decreases |s| - from
  {
    match LiteralEnd(s, from)
    case Some(e) => OutsideStartsNone(s, e, k);
    case None => if from < k { OutsideStartsNone(s, from + 1, k); }
  }

  /** Length kept, characters changed to spaces only, and no quote left. */
  lemma BlankIsBlank(s: string, k: nat)
    requires k < |s|
    ensures |Blank(s)| == |s| && (Blank(s)[k] == s[k] || Blank(s)[k] == ' ')
    ensures Blank(s)[k] != '\'' && Blank(s)[k] != '"'
  {
    if !Inside(s, 0, k) { OutsideStartsNone(s, 0, k); }
  }

  /** A semicolon remains exactly where the text has one outside its literals. */
  lemma SemicolonOutsideIff(s: string)
    ensures ';' in Blank(s) <==> exists k | 0 <= k < |s| :: s[k] == ';' && !Inside(s, 0, k)
  {
    if ';' in Blank(s) {
      var k :| 0 <= k < |Blank(s)| && Blank(s)[k] == ';';
      assert s[k] == ';' && !Inside(s, 0, k);
    }
    if k: nat :| k < |s| && s[k] == ';' && !Inside(s, 0, k) {
      assert Blank(s)[k] == ';';
    }
  }

  predicate Clean(s: string) { forall k | 0 <= k < |s| :: LiteralEnd(s, k).None? }

  lemma {:induction false} CleanHasNoInside(s: string, from: nat, k: nat)
    requires Clean(s)
    ensures !Inside(s, from, k)
    decreases |s| - from
  {
    if from < |s| { CleanHasNoInside(s, from + 1, k); }
  }

  /** Text without spaces that survives blanking was there before. */
  lemma SurvivorsWereThere(s: string, t: string, p: nat)
    requires OccursAt(Blank(s), t, p) && forall k | 0 <= k < |t| :: t[k] != ' '
    ensures OccursAt(s, t, p) && forall k | p <= k < p + |t| :: !Inside(s, 0, k)
  {
    forall k | p <= k < p + |t| ensures s[k] == t[k - p] && !Inside(s, 0, k) {
      assert Blank(s)[p..p + |t|][k - p] == Blank(s)[k];
    }
    assert s[p..p + |t|] == t;
  }

  lemma NoLongerTag(s: string, i: nat, m: nat, n: nat)
    requires TagAt(s, i, m) && TagAt(s, i, n)
    ensures n <= m
  {
    var j := if m < n then m - 1 else 0;
    assert s[i..i + m][m - 1] == s[i + m - 1] == '$';
    assert s[i..i + n][j] == s[i + j];
  }

  /** A tag that occurs at k is the one found there. */
  lemma TagIs(s: string, k: nat, t: string)
    requires IsTag(t) && OccursAt(s, t, k)
    ensures Tag(s, k) == Some(t)
  {
    assert TagAt(s, k, |t|);
    NoLongerTag(s, k, |t|, |Tag(s, k).value|);
    NoLongerTag(s, k, |Tag(s, k).value|, |t|);
  }

  lemma NoSpaceInTag(t: string)
    requires IsTag(t)
    ensures forall k | 0 <= k < |t| :: t[k] != ' '
  {
  }

  /** A tag that survives blanking was a tag that starts no literal, so it does not occur again. */
  lemma SurvivingTag(s: string, k: nat, t: string, p: nat)
    requires IsTag(t) && OccursAt(Blank(s), t, k) && k + |t| <= p
    ensures !OccursAt(Blank(s), t, p)
  {
    NoSpaceInTag(t);
    SurvivorsWereThere(s, t, k);
    OutsideStartsNone(s, 0, k);
    TagIs(s, k, t);
    if OccursAt(Blank(s), t, p) { SurvivorsWereThere(s, t, p); }
  }

  /** Nothing in a blanked text starts a literal, not even an unmatched or overlapping dollar tag. */
  lemma BlankIsClean(s: string)
    ensures Clean(Blank(s))
  {
    var b := Blank(s);
    forall k | 0 <= k < |b| ensures LiteralEnd(b, k).None? {
      BlankIsBlank(s, k);
      var tag := Tag(b, k);
      if tag.Some? {
        var close := Find(b, tag.value, k + |tag.value|);
        if close.Some? { SurvivingTag(s, k, tag.value, close.value); }
      }
    }
  }

  /** Blanking again changes nothing. */
  lemma BlankingIsIdempotent(s: string)
    ensures Blank(Blank(s)) == Blank(s)
  {
    BlankIsClean(s);
    forall k | 0 <= k < |s| ensures !Inside(Blank(s), 0, k) { CleanHasNoInside(Blank(s), 0, k); }
  }

  // ---- The first literal of a text ----

  /** No quote and no dollar sign. */
  predicate Plain(a: string) { '\'' !in a && '"' !in a && '$' !in a }

  lemma {:induction false} AfterPlain(s: string, from: nat, n: nat, k: nat)
    requires from <= n <= |s| && forall i | from <= i < n :: s[i] != '\'' && s[i] != '"' && s[i] != '$'
    ensures Inside(s, from, k) <==> Inside(s, n, k)
    decreases n - from
  {
    if from < n {
      AfterPlain(s, from + 1, n, k);
      NoTagHere(s, from);
    }
  }

  lemma {:induction false} InsideIsAhead(s: string, from: nat, k: nat)
    requires Inside(s, from, k)
    ensures from <= k
    decreases |s| - from
  {
    match LiteralEnd(s, from)
    case Some(e) => if !(from <= k < e) { InsideIsAhead(s, e, k); }
    case None => InsideIsAhead(s, from + 1, k);
  }

  /** If the literal after a plain start ends at e, what precedes it stays and it becomes spaces. */
  lemma FirstIsBlanked(s: string, n: nat, e: nat, k: nat)
    requires n < |s| && Plain(s[..n]) && LiteralEnd(s, n) == Some(e) && k < e
    ensures Blank(s)[k] == if k < n then s[k] else ' '
  {
    forall i | 0 <= i < n ensures s[i] != '\'' && s[i] != '"' && s[i] != '$' { assert s[i] == s[..n][i]; }
    AfterPlain(s, 0, n, k);
    if k < n && Inside(s, n, k) { InsideIsAhead(s, n, k); }
  }

  /** Text without quotes and dollar signs stays as it is. */
  lemma PlainTextStays(s: string)
    requires Plain(s)
    ensures Blank(s) == s
  {
    forall k | 0 <= k < |s| ensures Blank(s)[k] == s[k] { AfterPlain(s, 0, |s|, k); }
  }

  lemma {:induction false} NoneOccurs(b: string, q: char)
    requires q !in b
    ensures Occurrences(b, q) == 0
  {
    if b != "" { NoneOccurs(b[..|b| - 1], q); }
  }

  lemma FirstQuote(s: string, n: nat, b: string, q: char)
    requires q in {'\'', '"'} && q !in b && n + |b| + 1 < |s|
    requires s[n] == q && s[n + 1..n + 1 + |b|] == b && s[n + 1 + |b|] == q
    requires n + 2 + |b| < |s| ==> s[n + 2 + |b|] != q
    ensures LiteralEnd(s, n) == Some(n + |b| + 2)
  {
    var j := n + 1 + |b|;
    forall i | n + 1 <= i < j ensures !Closes(s, n, i) { assert s[i] == b[i - n - 1]; }
    assert s[n + 1..j + 1] == b + [q];
    assert (b + [q])[..|b|] == b;
    NoneOccurs(b, q);
    assert Closes(s, n, j);
    var e := QuoteEnd(s, n, n + 1);
    assert e == j + 1;
  }

  /** The first quoted literal of a text, quotes included, becomes spaces, and what precedes it stays. */
  lemma QuotedIsBlanked(a: string, q: char, b: string, c: string, k: nat)
    requires Plain(a) && q in {'\'', '"'} && q !in b && (c != "" ==> c[0] != q) && k < |a| + |b| + 2
    ensures Blank(a + [q] + b + [q] + c)[k] == if k < |a| then a[k] else ' '
  {
    var s := a + [q] + b + [q] + c;
    assert s[..|a|] == a && s[|a|] == q && s[|a| + 1..|a| + 1 + |b|] == b && s[|a| + 1 + |b|] == q;
    assert c != "" ==> s[|a| + 2 + |b|] == c[0];
    FirstQuote(s, |a|, b, q);
    FirstIsBlanked(s, |a|, |a| + |b| + 2, k);
  }

  lemma FirstTag(s: string, n: nat, t: string, close: nat)
    requires IsTag(t) && OccursAt(s, t, n) && n + |t| <= close && OccursAt(s, t, close)
    requires forall p | n + |t| <= p < close :: !OccursAt(s, t, p)
    ensures LiteralEnd(s, n) == Some(close + |t|)
  {
    assert s[n] == s[n..n + |t|][0] == '$';
    TagIs(s, n, t);
    assert Find(s, t, n + |t|).Some?;
  }

  /** So does the first literal between dollar tags, tags included, up to the next occurrence of its tag. */
  lemma TaggedIsBlanked(s: string, n: nat, t: string, close: nat, k: nat)
    requires IsTag(t) && OccursAt(s, t, n) && n + |t| <= close && OccursAt(s, t, close) && Plain(s[..n])
    requires forall p | n + |t| <= p < close :: !OccursAt(s, t, p)
    requires k < close + |t|
    ensures Blank(s)[k] == if k < n then s[k] else ' '
  {
    FirstTag(s, n, t, close);
    FirstIsBlanked(s, n, close + |t|, k);
  }

  /** A tag is two dollar signs with nothing between them, or a name of letters, digits and underscores. */
  lemma TagsAre(name: string)
    requires name == "" || ((IsLetter(name[0])) && forall k | 0 <= k < |name| :: IsWordChar(name[k]))
    ensures IsTag("$" + name + "$")
  {
  }
}
