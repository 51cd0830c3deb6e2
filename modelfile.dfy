/**
 * The model-file reader: the tokenizer that turns the lines of a model file
 * into parameters, the argument counter, the command loop that records which
 * commands were given, and the argument checks of a few commands.
 */
module ModelFile {
  import opened Flags

  // ---------------------------------------------------------------------
  // Scanning a line
  // ---------------------------------------------------------------------

  /** The characters line trimming removes: blank, tab, form feed, vertical
      tab, newline and carriage return. */
  predicate IsWhitespace(c: char)
  {
    c == ' ' || c == '\t' || c == 12 as char || c == 11 as char || c == '\n' || c == '\r'
  }

  /** The first index at or after `from` that holds `c`, or `|s|` (the
      string library's "not found") when there is none. */
  method FindChar(s: string, c: char, from: nat) returns (k: nat)
    ensures k == |s| || (from <= k < |s| && s[k] == c)
    ensures forall j :: from <= j < k ==> s[j] != c
  {
    if from >= |s| {
      return |s|;
    }
    k := from;
    while k < |s| && s[k] != c
      invariant from <= k <= |s|
      invariant forall j :: from <= j < k ==> s[j] != c
    {
      k := k + 1;
    }
  }

  /** The first index at or after `from` that does not hold `c`, or `|s|`. */
  method FindOther(s: string, c: char, from: nat) returns (k: nat)
    ensures k == |s| || (from <= k < |s| && s[k] != c)
    ensures forall j :: from <= j < k ==> s[j] == c
  {
    if from >= |s| {
      return |s|;
    }
    k := from;
    while k < |s| && s[k] == c
      invariant from <= k <= |s|
      invariant forall j :: from <= j < k ==> s[j] == c
    {
      k := k + 1;
    }
  }

  /** Every occurrence of `from` in `s` replaced by `to`. */
  function Substitute(s: string, from: char, to: char): string
  {
    seq(|s|, i requires 0 <= i < |s| => if s[i] == from then to else s[i])
  }

  // ---------------------------------------------------------------------
  // Trimming
  // ---------------------------------------------------------------------

  /** `s` without its leading whitespace. */
  function DropLeading(s: string): (r: string)
    ensures |r| <= |s|
    decreases |s|
  {
    if s != [] && IsWhitespace(s[0]) then DropLeading(s[1..]) else s
  }

  /** `s` without its trailing whitespace. */
  function DropTrailing(s: string): (r: string)
    ensures |r| <= |s|
    decreases |s|
  {
    if s != [] && IsWhitespace(s[|s| - 1]) then DropTrailing(s[..|s| - 1]) else s
  }

  /** A line with its leading and trailing whitespace removed. */
  function Trimmed(s: string): string
  {
    DropTrailing(DropLeading(s))
  }

  /** What `DropLeading` removes is a whitespace prefix, and what it keeps
      starts with a character that is not whitespace. */
  lemma {:induction false} DropLeadingShape(s: string)
    ensures DropLeading(s) == s[|s| - |DropLeading(s)|..]
    ensures forall k :: 0 <= k < |s| - |DropLeading(s)| ==> IsWhitespace(s[k])
    ensures DropLeading(s) == [] || !IsWhitespace(DropLeading(s)[0])
    decreases |s|
  {
    if s != [] && IsWhitespace(s[0]) {
      DropLeadingShape(s[1..]);
      var r := DropLeading(s);
      assert s[1..][|s| - 1 - |r|..] == s[|s| - |r|..];
      forall k | 1 <= k < |s| - |r|
        ensures IsWhitespace(s[k])
      {
        assert s[k] == s[1..][k - 1];
      }
    }
  }

  /** What `DropTrailing` removes is a whitespace suffix, and what it keeps
      ends with a character that is not whitespace. */
  lemma {:induction false} DropTrailingShape(s: string)
    ensures DropTrailing(s) == s[..|DropTrailing(s)|]
    ensures forall k :: |DropTrailing(s)| <= k < |s| ==> IsWhitespace(s[k])
    ensures DropTrailing(s) == [] || !IsWhitespace(DropTrailing(s)[|DropTrailing(s)| - 1])
    decreases |s|
  {
    if s != [] && IsWhitespace(s[|s| - 1]) {
      DropTrailingShape(s[..|s| - 1]);
      var r := DropTrailing(s);
      assert s[..|s| - 1][..|r|] == s[..|r|];
      forall k | |r| <= k < |s| - 1
        ensures IsWhitespace(s[k])
      {
        assert s[k] == s[..|s| - 1][k];
      }
    }
  }

  /** A leading whitespace character is dropped. */
  lemma DropLeadingStep(s: string, i: nat)
    requires i < |s| && IsWhitespace(s[i])
    ensures DropLeading(s[i..]) == DropLeading(s[i + 1..])
  {
    assert s[i..][0] == s[i];
    assert s[i..][1..] == s[i + 1..];
  }

  /** A trailing whitespace character is dropped. */
  lemma DropTrailingStep(s: string, a: nat, e: nat)
    requires a <= e < |s| && IsWhitespace(s[e])
    ensures DropTrailing(s[a..e + 1]) == DropTrailing(s[a..e])
  {
    var t := s[a..e + 1];
    assert t[|t| - 1] == s[e];
    assert t[..|t| - 1] == s[a..e];
  }

  /** Trimming a line: the positions scanned from both ends mirror the
      string library's first and last "not of" searches. */
  method TrimString(str: string) returns (r: string)
    ensures r == Trimmed(str)
  {
    var startpos := 0;
    while startpos < |str| && IsWhitespace(str[startpos])
      invariant 0 <= startpos <= |str|
      invariant DropLeading(str) == DropLeading(str[startpos..])
    {
      DropLeadingStep(str, startpos);
      startpos := startpos + 1;
    }
    if startpos == |str| {
      return [];
    }
    assert DropLeading(str) == str[startpos..] by {
      assert str[startpos..][0] == str[startpos];
    }
    var endpos := |str| - 1;
    assert str[startpos..] == str[startpos..endpos + 1];
    while IsWhitespace(str[endpos])
      invariant startpos <= endpos < |str|
      invariant !IsWhitespace(str[startpos])
      invariant Trimmed(str) == DropTrailing(str[startpos..endpos + 1])
      decreases endpos
    {
      DropTrailingStep(str, startpos, endpos);
      endpos := endpos - 1;
    }
    r := str[startpos..endpos + 1];
    assert r[|r| - 1] == str[endpos];
  }

  /** The trimmed line is a slice of the line, and everything cut off on
      either side is whitespace. */
  lemma TrimmedIsSlice(s: string)
    ensures exists a, b ::
      && 0 <= a <= b <= |s| && Trimmed(s) == s[a..b]
      && (forall k :: 0 <= k < a ==> IsWhitespace(s[k]))
      && (forall k :: b <= k < |s| ==> IsWhitespace(s[k]))
  {
    var t := DropLeading(s);
    DropLeadingShape(s);
    DropTrailingShape(t);
    var a := |s| - |t|;
    var r := DropTrailing(t);
    assert r == s[a..a + |r|];
    forall k | a + |r| <= k < |s|
      ensures IsWhitespace(s[k])
    {
      assert s[k] == t[k - a];
    }
  }

  /** A trimmed line is empty exactly when the line is all whitespace, and
      otherwise it starts and ends with a character that is not. */
  lemma TrimmedEnds(s: string)
    ensures Trimmed(s) == [] <==> forall k :: 0 <= k < |s| ==> IsWhitespace(s[k])
    ensures Trimmed(s) != [] ==> !IsWhitespace(Trimmed(s)[0]) && !IsWhitespace(Trimmed(s)[|Trimmed(s)| - 1])
  {
    var t := DropLeading(s);
    DropLeadingShape(s);
    DropTrailingShape(t);
    if t != [] {
      assert t[0] == s[|s| - |t|];
      assert !IsWhitespace(t[0]);
    }
  }

  /** Trimming twice is trimming once. */
  lemma TrimIdempotent(s: string)
    ensures Trimmed(Trimmed(s)) == Trimmed(s)
  {
    TrimmedEnds(s);
  }

  // ---------------------------------------------------------------------
  // Protecting quoted parts
  // ---------------------------------------------------------------------

  /** The number of apostrophes among the first `i` characters of `s`. */
  function QuotesBefore(s: string, i: nat): nat
    requires i <= |s|
  {
    if i == 0 then 0 else QuotesBefore(s, i - 1) + (if s[i - 1] == '"' then 1 else 0)
  }

  /** The number of apostrophes in `s`. */
  function QuoteCount(s: string): nat
  {
    QuotesBefore(s, |s|)
  }

  /** Position `i` of `s` follows an odd number of apostrophes: it lies in a
      quoted part (or is the apostrophe that closes one). */
  predicate InsideQuotes(s: string, i: nat)
    requires i <= |s|
  {
    QuotesBefore(s, i) % 2 == 1
  }

  /** What the protection makes of one character: apostrophes become
      blanks, and blanks inside a quoted part become apostrophes, the one
      character a quoted part cannot hold. */
  function Protect(c: char, inside: bool): char
  {
    if c == '"' then ' ' else if c == ' ' && inside then '"' else c
  }

  /** `r` is the line `s` with its quoted parts protected. */
  ghost predicate IsProtected(s: string, r: string)
  {
    |r| == |s| && forall i {:trigger r[i]} :: 0 <= i < |s| ==> r[i] == Protect(s[i], InsideQuotes(s, i))
  }

  /** Across a stretch without apostrophes the count does not change. */
  lemma {:induction false} QuotesBetween(s: string, a: nat, b: nat)
    requires a <= b <= |s|
    requires forall k :: a <= k < b ==> s[k] != '"'
    ensures QuotesBefore(s, b) == QuotesBefore(s, a)
    decreases b - a
  {
    if a < b {
      QuotesBetween(s, a, b - 1);
    }
  }

  /** What one matched pair of apostrophes at `a` and `b` makes of
      position `i`. */
  function PairChar(r: string, a: nat, b: nat, i: nat): char
    requires i < |r|
  {
    if i == a || i == b then ' ' else if a < i < b && r[i] == ' ' then '"' else r[i]
  }

  /** The three string replacements the source makes for one matched pair:
      the blanks from `a` up to `b` become apostrophes, then the two
      delimiting apostrophes become blanks. */
  method ProtectMatchedPair(r: string, a: nat, b: nat) returns (r': string)
    requires a < b < |r|
    ensures |r'| == |r|
    ensures forall i :: 0 <= i < |r| ==> r'[i] == PairChar(r, a, b, i)
  {
    var tmp := Substitute(r[a..b], ' ', '"');
    r' := r[..a] + tmp + r[b..];
    assert forall i :: 0 <= i < a ==> r'[i] == r[i];
    assert forall i :: a <= i < b ==> r'[i] == tmp[i - a];
    assert forall i :: b <= i < |r| ==> r'[i] == r[i];
    r' := r'[a := ' '];
    r' := r'[b := ' '];
  }

  lemma Parity(c: nat, d: nat)
    requires c % 2 == 0
    ensures (c + d) % 2 == d % 2
  {
  }

  /** One matched pair at `a` and `b` extends the protected prefix from `p`
      to just past `b`. */
  lemma ProtectPair(str: string, r: string, r': string, p: nat, a: nat, b: nat)
    requires p <= a < b < |str| == |r| == |r'|
    requires str[a] == '"' && str[b] == '"'
    requires forall k :: p <= k < b && k != a ==> str[k] != '"'
    requires QuotesBefore(str, p) % 2 == 0
    requires forall i {:trigger r[i]} :: 0 <= i < p ==> r[i] == Protect(str[i], InsideQuotes(str, i))
    requires forall k :: p <= k < |r| ==> r[k] == str[k]
    requires forall i :: 0 <= i < |r| ==> r'[i] == PairChar(r, a, b, i)
    ensures forall i {:trigger r'[i]} :: 0 <= i <= b ==> r'[i] == Protect(str[i], InsideQuotes(str, i))
    ensures forall k :: b + 1 <= k < |r'| ==> r'[k] == str[k]
    ensures QuotesBefore(str, b + 1) % 2 == 0
  {
    QuotesBetween(str, p, a);
    QuotesBetween(str, a + 1, b);
    assert QuotesBefore(str, b + 1) == QuotesBefore(str, p) + 2;
    Parity(QuotesBefore(str, p), 2);
    forall i | 0 <= i <= b
      ensures r'[i] == Protect(str[i], InsideQuotes(str, i))
    {
      assert r'[i] == PairChar(r, a, b, i);
      if p <= i < a {
        QuotesBetween(str, p, i);
      } else if a < i < b {
        QuotesBetween(str, a + 1, i);
        assert QuotesBefore(str, i) == QuotesBefore(str, p) + 1;
        Parity(QuotesBefore(str, p), 1);
      }
    }
  }

  /** An apostrophe at `a` with none after it leaves an odd count. */
  lemma UnmatchedQuote(str: string, p: nat, a: nat)
    requires p <= a < |str| && str[a] == '"'
    requires QuotesBefore(str, p) % 2 == 0
    requires forall k :: p <= k < |str| && k != a ==> str[k] != '"'
    ensures QuoteCount(str) % 2 == 1
  {
    QuotesBetween(str, p, a);
    QuotesBetween(str, a + 1, |str|);
  }

  /** With no apostrophe after `p`, the line is protected once its prefix
      up to `p` is. */
  lemma NoQuoteLeft(str: string, r: string, p: nat)
    requires p <= |str| == |r|
    requires QuotesBefore(str, p) % 2 == 0
    requires forall i {:trigger r[i]} :: 0 <= i < p ==> r[i] == Protect(str[i], InsideQuotes(str, i))
    requires forall k :: p <= k < |r| ==> r[k] == str[k] && str[k] != '"'
    ensures QuoteCount(str) % 2 == 0
    ensures IsProtected(str, r)
  {
    QuotesBetween(str, p, |str|);
    forall i | p <= i < |str|
      ensures r[i] == Protect(str[i], InsideQuotes(str, i))
    {
      QuotesBetween(str, p, i);
    }
  }

  /** Protecting the quoted parts of a line: every matched pair of
      apostrophes becomes two blanks and every blank between them an
      apostrophe. `ok` is false where the source reports an odd number of
      apostrophes and stops. */
  method FindApostropheEnclosedParts(str: string) returns (r: string, ok: bool)
    ensures ok <==> QuoteCount(str) % 2 == 0
    ensures ok ==> IsProtected(str, r)
  {
    r := str;
    ghost var p: nat := 0;
    var startpos := FindChar(r, '"', 0);
    while startpos < |r|
      invariant |r| == |str|
      invariant p <= startpos <= |r|
      invariant QuotesBefore(str, p) % 2 == 0
      invariant forall i {:trigger r[i]} :: 0 <= i < p ==> r[i] == Protect(str[i], InsideQuotes(str, i))
      invariant forall k :: p <= k < |r| ==> r[k] == str[k]
      invariant forall k :: p <= k < startpos ==> str[k] != '"'
      invariant startpos < |r| ==> str[startpos] == '"'
      decreases |r| - startpos
    {
      var endpos := FindChar(r, '"', startpos + 1);
      if endpos == |r| {
        UnmatchedQuote(str, p, startpos);
        return r, false;
      }
      var r' := ProtectMatchedPair(r, startpos, endpos);
      ProtectPair(str, r, r', p, startpos, endpos);
      r, p := r', endpos + 1;
      startpos := FindChar(r, '"', endpos + 1);
    }
    NoQuoteLeft(str, r, p);
    ok := true;
  }

  /** Restoring blanks undoes the protection: the protected line with its
      apostrophes turned into blanks is the original line with its
      apostrophes turned into blanks, so a quoted part comes back with its
      blanks and without its delimiters. */
  lemma ProtectRestores(s: string, r: string)
    requires IsProtected(s, r)
    ensures Substitute(r, '"', ' ') == Substitute(s, '"', ' ')
  {
    forall i | 0 <= i < |s|
      ensures Substitute(r, '"', ' ')[i] == Substitute(s, '"', ' ')[i]
    {
      assert r[i] == Protect(s[i], InsideQuotes(s, i));
    }
  }

  /** A protected line holds no blank inside a quoted part, so splitting it
      on blanks keeps each quoted part in one piece; outside the quoted
      parts it is the original line, apostrophes aside. */
  lemma ProtectKeepsQuotedTogether(s: string, r: string, i: nat)
    requires IsProtected(s, r) && i < |s| && s[i] != '"'
    ensures InsideQuotes(s, i) ==> r[i] != ' '
    ensures !InsideQuotes(s, i) ==> r[i] == s[i]
  {
  }

  // ---------------------------------------------------------------------
  // Splitting a line into parameters
  // ---------------------------------------------------------------------

  /** The length of the blank-free run `s` starts with. */
  function WordLength(s: string): (n: nat)
    requires s != [] && s[0] != ' '
    ensures 1 <= n <= |s|
    ensures forall k :: 0 <= k < n ==> s[k] != ' '
    ensures n < |s| ==> s[n] == ' '
    decreases |s|
  {
    if |s| == 1 || s[1] == ' ' then 1 else 1 + WordLength(s[1..])
  }

  /** The words of a line: its maximal blank-free runs, in order. */
  function Words(s: string): seq<string>
    decreases |s|
  {
    if s == [] then []
    else if s[0] == ' ' then Words(s[1..])
    else [s[..WordLength(s)]] + Words(s[WordLength(s)..])
  }

  /** The parameters one word gives: a word longer than one character that
      ends in ';' is the word without it followed by ";". */
  function Pieces(w: string): seq<string>
  {
    if |w| > 1 && w[|w| - 1] == ';' then [w[..|w| - 1], ";"] else [w]
  }

  /** The parameters of a sequence of words. */
  function Entries(ws: seq<string>): seq<string>
  {
    if ws == [] then [] else Pieces(ws[0]) + Entries(ws[1..])
  }

  /** The parameters of a line. */
  function Tokens(s: string): seq<string>
  {
    Entries(Words(s))
  }

  /** Leading blanks do not change the words. */
  lemma {:induction false} WordsSkipBlanks(s: string, k: nat)
    requires k <= |s|
    requires forall j :: 0 <= j < k ==> s[j] == ' '
    ensures Words(s) == Words(s[k..])
    decreases k
  {
    if k > 0 {
      assert s[1..][k - 1..] == s[k..];
      WordsSkipBlanks(s[1..], k - 1);
    }
  }

  /** A word that ends at a blank or at the end of the line. */
  lemma {:induction false} WordLengthIs(s: string, n: nat)
    requires 1 <= n <= |s| && s[0] != ' '
    requires forall k :: 0 <= k < n ==> s[k] != ' '
    requires n < |s| ==> s[n] == ' '
    ensures WordLength(s) == n
    decreases |s|
  {
    if n > 1 {
      WordLengthIs(s[1..], n - 1);
    }
  }

  lemma EntriesCons(w: string, ws: seq<string>)
    ensures Entries([w] + ws) == Pieces(w) + Entries(ws)
  {
    assert ([w] + ws)[1..] == ws;
  }

  /** The next word of the line starts at `startpos` and ends at `endpos`. */
  lemma WordAt(str: string, startpos: nat, endpos: nat)
    requires startpos < endpos <= |str| && str[startpos] != ' '
    requires forall k :: startpos <= k < endpos ==> str[k] != ' '
    requires endpos < |str| ==> str[endpos] == ' '
    ensures Tokens(str[startpos..]) == Pieces(str[startpos..endpos]) + Tokens(str[endpos..])
  {
    var s := str[startpos..];
    WordLengthIs(s, endpos - startpos);
    assert s[..endpos - startpos] == str[startpos..endpos];
    assert s[endpos - startpos..] == str[endpos..];
    EntriesCons(str[startpos..endpos], Words(str[endpos..]));
  }

  /** Pushing the parameters of the word from `startpos` to `endpos`. */
  method PushWord(entries: seq<string>, str: string, startpos: nat, endpos: nat) returns (entries': seq<string>)
    requires startpos < endpos <= |str|
    ensures entries' == entries + Pieces(str[startpos..endpos])
  {
    ghost var w := str[startpos..endpos];
    assert w[|w| - 1] == str[endpos - 1];
    if str[endpos - 1] == ';' && endpos > startpos + 1 {
      assert w[..|w| - 1] == str[startpos..endpos - 1];
      entries' := entries + [str[startpos..endpos - 1], ";"];
    } else {
      entries' := entries + [str[startpos..endpos]];
    }
  }

  /** Splitting a protected line into parameters appended to `entries0`,
      as the source pushes onto its vector. */
  method SplitString(entries0: seq<string>, str: string) returns (entries: seq<string>)
    ensures entries == entries0 + Tokens(str)
  {
    entries := entries0;
    var startpos := FindOther(str, ' ', 0);
    WordsSkipBlanks(str, startpos);
    while startpos < |str|
      invariant startpos <= |str|
      invariant startpos < |str| ==> str[startpos] != ' '
      invariant entries + Tokens(str[startpos..]) == entries0 + Tokens(str)
      decreases |str| - startpos
    {
      var endpos := FindChar(str, ' ', startpos + 1);
      WordAt(str, startpos, endpos);
      var pieces := Pieces(str[startpos..endpos]);
      var entries' := PushWord(entries, str, startpos, endpos);
      var next := FindOther(str, ' ', endpos + 1);
      SkipGap(str, endpos, next);
      AppendAssoc(entries, pieces, Tokens(str[endpos..]));
      entries, startpos := entries', next;
    }
  }

  lemma AppendAssoc(a: seq<string>, b: seq<string>, c: seq<string>)
    ensures (a + b) + c == a + (b + c)
  {
  }

  /** The blanks between two words do not change what follows. */
  lemma SkipGap(str: string, endpos: nat, next: nat)
    requires endpos <= next <= |str|
    requires endpos < |str| ==> str[endpos] == ' '
    requires endpos == |str| ==> next == |str|
    requires forall j :: endpos + 1 <= j < next ==> str[j] == ' '
    ensures Tokens(str[endpos..]) == Tokens(str[next..])
  {
    if endpos < |str| {
      assert str[endpos..][next - endpos..] == str[next..];
      WordsSkipBlanks(str[endpos..], next - endpos);
    }
  }

  /** `s` without its blanks. */
  function NonBlanks(s: string): string
  {
    if s == [] then [] else (if s[0] == ' ' then [] else [s[0]]) + NonBlanks(s[1..])
  }

  /** The concatenation of a sequence of strings. */
  function Concat(ss: seq<string>): string
  {
    if ss == [] then [] else ss[0] + Concat(ss[1..])
  }

  lemma {:induction false} ConcatAppend(a: seq<string>, b: seq<string>)
    ensures Concat(a + b) == Concat(a) + Concat(b)
  {
    if a == [] {
      assert a + b == b;
    } else {
      assert (a + b)[0] == a[0];
      assert (a + b)[1..] == a[1..] + b;
      ConcatAppend(a[1..], b);
      calc {
        Concat(a + b);
        a[0] + Concat(a[1..] + b);
        a[0] + (Concat(a[1..]) + Concat(b));
        (a[0] + Concat(a[1..])) + Concat(b);
      }
    }
  }

  lemma {:induction false} NonBlanksAppend(a: string, b: string)
    ensures NonBlanks(a + b) == NonBlanks(a) + NonBlanks(b)
  {
    if a == [] {
      assert a + b == b;
    } else {
      var h: string := if a[0] == ' ' then [] else [a[0]];
      assert (a + b)[0] == a[0];
      assert (a + b)[1..] == a[1..] + b;
      NonBlanksAppend(a[1..], b);
      calc {
        NonBlanks(a + b);
        h + NonBlanks(a[1..] + b);
        h + (NonBlanks(a[1..]) + NonBlanks(b));
        (h + NonBlanks(a[1..])) + NonBlanks(b);
      }
    }
  }

  lemma {:induction false} NonBlanksOfWord(w: string)
    requires forall k :: 0 <= k < |w| ==> w[k] != ' '
    ensures NonBlanks(w) == w
  {
    if w != [] {
      NonBlanksOfWord(w[1..]);
    }
  }

  /** The parameters of a line, read back to back, are the line without its
      blanks: splitting loses and reorders nothing. */
  lemma {:induction false} TokensConcat(s: string)
    ensures Concat(Tokens(s)) == NonBlanks(s)
    decreases |s|
  {
    if s == [] {
    } else if s[0] == ' ' {
      TokensConcat(s[1..]);
    } else {
      var n := WordLength(s);
      var w := s[..n];
      EntriesCons(w, Words(s[n..]));
      ConcatAppend(Pieces(w), Entries(Words(s[n..])));
      if |w| > 1 && w[|w| - 1] == ';' {
        assert Concat(Pieces(w)) == w[..|w| - 1] + (";" + []);
        assert w[..|w| - 1] + ";" == w;
      } else {
        assert Concat(Pieces(w)) == w + [];
      }
      TokensConcat(s[n..]);
      assert s == w + s[n..];
      NonBlanksAppend(w, s[n..]);
      NonBlanksOfWord(w);
    }
  }

  lemma PiecesAreWords(w: string)
    requires w != [] && ' ' !in w
    ensures forall t :: t in Pieces(w) ==> t != [] && ' ' !in t
  {
    if |w| > 1 && w[|w| - 1] == ';' {
      var h := w[..|w| - 1];
      assert forall k :: 0 <= k < |h| ==> h[k] == w[k];
    }
  }

  /** Every parameter of a line is a non-empty string without blanks. */
  lemma {:induction false} TokensAreWords(s: string)
    ensures forall t :: t in Tokens(s) ==> t != [] && ' ' !in t
    decreases |s|
  {
    if s == [] {
    } else if s[0] == ' ' {
      assert Tokens(s) == Tokens(s[1..]);
      TokensAreWords(s[1..]);
    } else {
      var n := WordLength(s);
      var w := s[..n];
      EntriesCons(w, Words(s[n..]));
      assert Tokens(s) == Pieces(w) + Tokens(s[n..]);
      assert ' ' !in w by {
        assert forall k :: 0 <= k < n ==> w[k] == s[k];
      }
      PiecesAreWords(w);
      TokensAreWords(s[n..]);
    }
  }

  // ---------------------------------------------------------------------
  // Restoring blanks
  // ---------------------------------------------------------------------

  /** Turning the apostrophes of the parameters from `iStart` on back into
      blanks; the parameters before `iStart`, from earlier lines, are left
      as they are. */
  method ReintroduceBlanks(entries: seq<string>, iStart: nat) returns (r: seq<string>)
    ensures |r| == |entries|
    ensures forall i :: 0 <= i < |r| && i < iStart ==> r[i] == entries[i]
    ensures forall i :: iStart <= i < |r| ==> r[i] == Substitute(entries[i], '"', ' ')
    ensures forall i :: iStart <= i < |r| ==> '"' !in r[i]
  {
    r := entries;
    var i := iStart;
    while i < |r|
      invariant iStart <= i
      invariant |r| == |entries|
      invariant forall j :: 0 <= j < |r| && (j < iStart || j >= i) ==> r[j] == entries[j]
      invariant forall j :: iStart <= j < i && j < |r| ==> r[j] == Substitute(entries[j], '"', ' ')
      decreases |r| - i
    {
      r := r[i := Substitute(r[i], '"', ' ')];
      i := i + 1;
    }
  }

  // ---------------------------------------------------------------------
  // Counting arguments
  // ---------------------------------------------------------------------

  /** A parameter that ends a command: its first character is ';'. */
  predicate IsTerminator(p: string)
  {
    |p| > 0 && p[0] == ';'
  }

  /** The index of the first terminator at or after `pos`, or `|params|`. */
  function NextTerminator(params: seq<string>, pos: nat): (k: nat)
    requires pos <= |params|
    ensures pos <= k <= |params|
    ensures k < |params| ==> IsTerminator(params[k])
    ensures forall j :: pos <= j < k ==> !IsTerminator(params[j])
    decreases |params| - pos
  {
    if pos == |params| || IsTerminator(params[pos]) then pos else NextTerminator(params, pos + 1)
  }

  /** An argument count outside the limits: with `max == 0` the count must
      be exactly `min`, with a negative `max` there is no upper limit. */
  predicate CountWrong(n: int, min: int, max: int)
  {
    if max == 0 then n != min else n < min || (max > 0 && n > max)
  }

  /** The counts a command accepts, limit by limit. */
  lemma CountAccepted(n: int, min: int, max: int)
    ensures !CountWrong(n, min, max) <==>
      || (max == 0 && n == min)
      || (max < 0 && min <= n)
      || (max > 0 && min <= n <= max)
  {
  }

  /** The number of arguments from `pos` up to the next terminator, and
      whether it breaks the limits. */
  method GetParNum(params: seq<string>, pos: nat, min: int, max: int) returns (n: nat, error: bool)
    requires pos <= |params| && NextTerminator(params, pos) < |params|
    ensures pos + n == NextTerminator(params, pos)
    ensures error <==> CountWrong(n, min, max)
  {
    n := 0;
    while !IsTerminator(params[pos + n])
      invariant pos + n <= NextTerminator(params, pos)
      decreases NextTerminator(params, pos) - pos - n
    {
      n := n + 1;
    }
    error := CountWrong(n, min, max);
  }

  // ---------------------------------------------------------------------
  // Names
  // ---------------------------------------------------------------------

  /** The first position from `j` on that holds `name`, or `|names|`. */
  function IndexFrom(names: seq<string>, name: string, j: nat): (i: nat)
    requires j <= |names|
    ensures j <= i <= |names|
    decreases |names| - j
  {
    if j == |names| || names[j] == name then j else IndexFrom(names, name, j + 1)
  }

  /** The position of `name` in `names`, or `|names|` when it is absent. */
  function IndexOf(names: seq<string>, name: string): (i: nat)
    ensures i <= |names|
  {
    IndexFrom(names, name, 0)
  }

  /** `IndexFrom` finds the first occurrence from `j` on. */
  lemma {:induction false} IndexFromMeaning(names: seq<string>, name: string, j: nat)
    requires j <= |names|
    ensures var i := IndexFrom(names, name, j);
      (i < |names| ==> names[i] == name) && forall k :: j <= k < i ==> names[k] != name
    decreases |names| - j
  {
    if j < |names| && names[j] != name {
      IndexFromMeaning(names, name, j + 1);
    }
  }

  /** `IndexOf` is the first occurrence of `name`; `|names|` means none. */
  lemma IndexOfMeaning(names: seq<string>, name: string)
    ensures var i := IndexOf(names, name);
      (i < |names| ==> names[i] == name) && (forall k :: 0 <= k < i ==> names[k] != name)
  {
    IndexFromMeaning(names, name, 0);
  }

  /** The linear search the source writes out for every look-up. */
  method LookUp(names: seq<string>, name: string) returns (i: nat)
    ensures i == IndexOf(names, name)
  {
    i := 0;
    while i < |names| && names[i] != name
      invariant i <= |names|
      invariant IndexFrom(names, name, i) == IndexOf(names, name)
    {
      i := i + 1;
    }
  }

  /** ASCII upper case, as the source's `uppercase` helper is taken to do. */
  function Upper(c: char): char
  {
    if 'a' <= c <= 'z' then (c as int - 32) as char else c
  }

  function Uppercase(s: string): string
  {
    seq(|s|, i requires 0 <= i < |s| => Upper(s[i]))
  }

  /** The commands of a model file, in the order that numbers their bits. */
  const Commands: seq<string> := [
    "WELLS", "DEPTH", "SEISMIC", "ANGULARCORRELATION", "SEED",
    "LATERALCORRELATION", "NSIMULATIONS", "PREDICTION", "PADDING", "PREFIX",
    "AREA", "WHITENOISE", "OUTPUT", "SEGYOFFSET", "FORCEFILE",
    "DEBUG", "KRIGING", "LOCALWAVELET", "ENERGYTRESHOLD", "PARAMETERCORRELATION",
    "REFLECTIONMATRIX", "FREQUENCYBAND", "BACKGROUND", "MAX_DEVIATION_ANGLE", "empty_slot",
    "SEISMICRESOLUTION", "WAVELETLENGTH", "DEPTH_CONVERSION", "PS_SEISMIC", "PUNDEF",
    "ALLOWED_PARAMETER_VALUES", "ALLOWED_RESIDUAL_VARIANCES", "CORRELATION_DIRECTION",
    "WAVELET_ESTIMATION_INTERVAL", "FACIES_ESTIMATION_INTERVAL", "LOG_LEVEL",
    "TRACE_HEADER_FORMAT", "BACKGROUND_VELOCITY"]

  /** The number of command names, `|Commands|`. */
  const NCommands: nat := 38

  const Prediction: nat := 7

  /** The number of the command a parameter names, or `NCommands`. */
  function CommandIndex(p: string): (i: nat)
    ensures i <= NCommands
  {
    IndexOf(Commands, Uppercase(p))
  }

  /** The look-up of a command name in the reader's loop. */
  method LookUpCommand(p: string) returns (i: nat)
    ensures i == CommandIndex(p)
  {
    var command := Uppercase(p);
    i := LookUp(Commands, command);
  }

  /** The slot kept free in the command list is written in lower case, so
      no upper-cased parameter selects it. */
  lemma EmptySlotUnreachable(p: string)
    ensures CommandIndex(p) != 24
  {
    var u := Uppercase(p);
    IndexOfMeaning(Commands, u);
    if |u| == |Commands[24]| {
      assert u[0] == Upper(p[0]);
      assert u != Commands[24];
    }
  }

  // ---------------------------------------------------------------------
  // The command loop
  // ---------------------------------------------------------------------

  /** The parameters with a ";" appended when the last one does not end a
      command. */
  function Closed(params: seq<string>): seq<string>
    requires |params| > 0
  {
    if IsTerminator(params[|params| - 1]) then params else params + [";"]
  }

  /** The positions where handlers that read more than one group leave
      the loop: `ends[k]` is the position after the handler of the command
      named at `k` (WELLS, for one, reads its HEADERS and INDICATORS groups
      each up to its own terminator). A handler whose position is not in
      `ends` reads its arguments through the first terminator. Each end lies
      past the command's name and inside the parameters. */
  ghost predicate ValidEnds(params: seq<string>, ends: map<nat, nat>)
  {
    forall k :: k in ends ==> k < ends[k] <= |params|
  }

  /** The commands accepted after the command numbered `i`: a known command
      not met before is added. */
  function Accepted(used: set<nat>, i: nat): (r: set<nat>)
    ensures r == used || (i < NCommands && i !in used && r == used + {i})
  {
    if i < NCommands && i !in used then used + {i} else used
  }

  /** Whether the loop hands the command numbered `i` to its handler:
      a known command, not met before, other than PREDICTION. */
  predicate Handled(used: set<nat>, i: nat)
  {
    i < NCommands && i !in used && i != Prediction
  }

  /** The position the loop resumes at after the command named at `k`,
      number `i` in `Commands`: the handler's end, or the position after
      the first terminator for duplicates, unknown names, PREDICTION and
      handlers that read one group. */
  ghost function NextCommand(params: seq<string>, used: set<nat>, k: nat, i: nat, ends: map<nat, nat>): (next: nat)
    requires k < |params| && NextTerminator(params, k + 1) < |params| && ValidEnds(params, ends)
    ensures k < next <= |params|
    ensures !(Handled(used, i) && k in ends) ==> next == NextTerminator(params, k + 1) + 1
  {
    if Handled(used, i) && k in ends then ends[k] else NextTerminator(params, k + 1) + 1
  }

  /** Every command from `pos` on, starting from the set `used`, has a
      terminator after its name. */
  ghost predicate Terminated(params: seq<string>, pos: nat, used: set<nat>, ends: map<nat, nat>)
    requires pos <= |params| && ValidEnds(params, ends)
    decreases |params| - pos
  {
    pos == |params| ||
    (NextTerminator(params, pos + 1) < |params| &&
     var i := CommandIndex(params[pos]);
     Terminated(params, NextCommand(params, used, pos, i, ends), Accepted(used, i), ends))
  }

  /** What the command named at `k`, number `i` in `Commands`, does given
      the set `used` of the commands accepted before it: the new set, its
      number of errors, and where the loop goes on. Its own error is an
      unknown or repeated name, a PREDICTION with arguments, or an error its
      handler reports (`failing` holds the command and argument position of
      those); one more is counted when the parameter before the new
      position is longer than ";". */
  ghost function CommandStep(params: seq<string>, used: set<nat>, k: nat, i: nat, failing: set<(nat, nat)>,
                             ends: map<nat, nat>): (set<nat>, nat, nat)
    requires k < |params| && NextTerminator(params, k + 1) < |params| && ValidEnds(params, ends)
  {
    var next := NextCommand(params, used, k, i, ends);
    var extra := if |params[next - 1]| > 1 then 1 else 0;
    var own := if i >= NCommands || i in used then 1
               else if i == Prediction then (if NextTerminator(params, k + 1) != k + 1 then 1 else 0)
               else if (i, k + 1) in failing then 1 else 0;
    (Accepted(used, i), own + extra, next)
  }

  /** What the loop records from the command named at `pos` on, starting
      from the set `used`: the final set and the number of errors. */
  ghost function RunFrom(params: seq<string>, pos: nat, used: set<nat>, failing: set<(nat, nat)>,
                         ends: map<nat, nat>): (set<nat>, nat)
    requires pos <= |params| && ValidEnds(params, ends) && Terminated(params, pos, used, ends)
    decreases |params| - pos
  {
    if pos == |params| then (used, 0)
    else
      var step := CommandStep(params, used, pos, CommandIndex(params[pos]), failing, ends);
      var rest := RunFrom(params, step.2, step.0, failing, ends);
      (rest.0, step.1 + rest.1)
  }

  /** How many of the commands from `pos` on name command `i` (`i ==
      NCommands` counts the unknown names). */
  ghost function CountNamed(params: seq<string>, pos: nat, used: set<nat>, ends: map<nat, nat>, i: nat): nat
    requires pos <= |params| && ValidEnds(params, ends) && Terminated(params, pos, used, ends)
    decreases |params| - pos
  {
    if pos == |params| then 0
    else
      var c := CommandIndex(params[pos]);
      (if c == i then 1 else 0) + CountNamed(params, NextCommand(params, used, pos, c, ends), Accepted(used, c), ends, i)
  }

  /** One pass of the command loop, for the command named at `k`, whose
      number in `Commands` is `i`. */
  method ReadCommand(ps: seq<string>, k: nat, i: nat, used: nat, ghost s: set<nat>, failing: set<(nat, nat)>,
                     ends: map<nat, nat>)
    returns (next: nat, used': nat, errors: nat)
    requires k < |ps| && NextTerminator(ps, k + 1) < |ps| && i <= NCommands && Represents(used, s)
    requires ValidEnds(ps, ends)
    ensures next == CommandStep(ps, s, k, i, failing, ends).2
    ensures Represents(used', CommandStep(ps, s, k, i, failing, ends).0)
    ensures errors == CommandStep(ps, s, k, i, failing, ends).1
  {
    var curPos := k + 1;
    used' := used;
    var n, error;
    if i < NCommands {
      if HasFlag(used, i) {
        n, error := GetParNum(ps, curPos, 0, -1);
        curPos := curPos + n + 1;
        error := true;
      } else {
        used' := SetFlag(used, i);
        SetFlagAdds(used, s, i);
        if i == Prediction {
          n, error := GetParNum(ps, curPos, 0, 0);
          curPos := curPos + n + 1;
        } else if k in ends {
          curPos := ends[k];
          error := (i, k + 1) in failing;
        } else {
          n, error := GetParNum(ps, curPos, 0, -1);
          curPos := curPos + n + 1;
          error := (i, k + 1) in failing;
        }
      }
    } else {
      n, error := GetParNum(ps, curPos, 0, -1);
      curPos := curPos + n + 1;
      error := true;
    }
    errors := 0;
    if error {
      errors := errors + 1;
    }
    if |ps[curPos - 1]| > 1 {
      errors := errors + 1;
    }
    next := curPos;
  }

  /** `RunFrom` at a command: that command's step, then the rest from the
      position where the step leaves the loop. */
  lemma RunFromStep(ps: seq<string>, pos: nat, used: set<nat>, i: nat, failing: set<(nat, nat)>, ends: map<nat, nat>,
                    next: nat, used': set<nat>, errors: nat)
    requires pos < |ps| && ValidEnds(ps, ends) && Terminated(ps, pos, used, ends) && i == CommandIndex(ps[pos])
    requires NextTerminator(ps, pos + 1) < |ps| ==> (used', errors, next) == CommandStep(ps, used, pos, i, failing, ends)
    ensures next <= |ps| && Terminated(ps, next, used', ends)
    ensures RunFrom(ps, pos, used, failing, ends) ==
            (RunFrom(ps, next, used', failing, ends).0, errors + RunFrom(ps, next, used', failing, ends).1)
  {
  }

  /** The command loop of the model-file reader. Each command's name is
      looked up in `Commands`; a command met before, or an unknown name, is
      an error and its arguments are skipped; otherwise its flag is set in
      `commandsUsed` and its handler reads its arguments, through the
      terminator or up to its position in `ends`. PREDICTION takes no
      arguments. A missing final ";" is appended and counted as an error. */
  method ReadCommands(params: seq<string>, failing: set<(nat, nat)>, ends: map<nat, nat>)
    returns (commandsUsed: nat, nErrors: nat)
    requires |params| > 0 && ValidEnds(Closed(params), ends) && Terminated(Closed(params), 0, {}, ends)
    ensures var run := RunFrom(Closed(params), 0, {}, failing, ends);
      Represents(commandsUsed, run.0) && nErrors == run.1 + (if IsTerminator(params[|params| - 1]) then 0 else 1)
  {
    var ps := params;
    nErrors := 0;
    if !IsTerminator(ps[|ps| - 1]) {
      ps := ps + [";"];
      nErrors := 1;
    }
    ghost var e0 := nErrors;
    commandsUsed := 0;
    ghost var s: set<nat> := {};
    EmptyMask();
    var curPos := 0;
    ghost var total := RunFrom(ps, 0, {}, failing, ends);
    while curPos < |ps|
      invariant curPos <= |ps| && Terminated(ps, curPos, s, ends) && Represents(commandsUsed, s)
      invariant total.0 == RunFrom(ps, curPos, s, failing, ends).0
      invariant total.1 + e0 == RunFrom(ps, curPos, s, failing, ends).1 + nErrors
      decreases |ps| - curPos
    {
      var i := LookUpCommand(ps[curPos]);
      assert NextTerminator(ps, curPos + 1) < |ps|;
      var next, errors;
      next, commandsUsed, errors := ReadCommand(ps, curPos, i, commandsUsed, s, failing, ends);
      ghost var s' := CommandStep(ps, s, curPos, i, failing, ends).0;
      RunFromStep(ps, curPos, s, i, failing, ends, next, s', errors);
      curPos, s := next, s';
      nErrors := nErrors + errors;
    }
  }

  /** A parameter of two characters names no command. */
  lemma TwoCharacterNameUnknown(p: string)
    requires |p| == 2
    ensures CommandIndex(p) == NCommands
  {
    IndexOfMeaning(Commands, Uppercase(p));
    assert forall k :: 0 <= k < |Commands| ==> |Commands[k]| != 2;
  }

  /** A WELLS command whose handler reads a HEADERS group and then one
      well name, each up to its own ";", is one command without errors;
      ending it at its first ";" instead reads the well name as an unknown
      command. */
  lemma WellsGroupsExample()
    ensures var ps := ["WELLS", "HEADERS", "t", "vp", ";", "w1", ";"];
      ValidEnds(ps, map[0 := 7]) && Terminated(ps, 0, {}, map[0 := 7]) &&
      RunFrom(ps, 0, {}, {}, map[0 := 7]) == ({0}, 0) &&
      ValidEnds(ps, map[]) && Terminated(ps, 0, {}, map[]) &&
      RunFrom(ps, 0, {}, {}, map[]) == ({0}, 1)
  {
    var ps := ["WELLS", "HEADERS", "t", "vp", ";", "w1", ";"];
    assert CommandIndex(ps[0]) == 0 by {
      assert Uppercase(ps[0]) == Commands[0];
    }
    TwoCharacterNameUnknown(ps[5]);
    assert NextTerminator(ps, 1) == 4;
    assert NextTerminator(ps, 6) == 6;
    assert Handled({}, 0) && NextCommand(ps, {}, 0, 0, map[0 := 7]) == 7;
    assert Accepted({}, 0) == {0};
    assert |ps[6]| == 1;
    assert CommandStep(ps, {}, 0, 0, {}, map[0 := 7]).1 == 0;
    assert CommandStep(ps, {}, 0, 0, {}, map[0 := 7]) == ({0}, 0, 7);
    assert RunFrom(ps, 7, {0}, {}, map[0 := 7]) == ({0}, 0);
    assert Terminated(ps, 7, {0}, map[]);
    assert Terminated(ps, 5, {0}, map[]);
  }

  /** The loop ends with exactly the commands it started with and the known
      ones named from `pos` on. */
  lemma {:induction false} UsedMeaning(ps: seq<string>, pos: nat, used: set<nat>, failing: set<(nat, nat)>,
                                       ends: map<nat, nat>, i: nat)
    requires pos <= |ps| && ValidEnds(ps, ends) && Terminated(ps, pos, used, ends)
    ensures i in RunFrom(ps, pos, used, failing, ends).0 <==>
            i in used || (i < NCommands && CountNamed(ps, pos, used, ends, i) > 0)
    decreases |ps| - pos
  {
    if pos < |ps| {
      var step := CommandStep(ps, used, pos, CommandIndex(ps[pos]), failing, ends);
      UsedMeaning(ps, step.2, step.0, failing, ends, i);
    }
  }

  /** A run without errors names no unknown command, and no command twice
      or once more after it was met before `pos`. */
  lemma {:induction false} NoErrorsDistinct(ps: seq<string>, pos: nat, used: set<nat>, failing: set<(nat, nat)>,
                                            ends: map<nat, nat>, i: nat)
    requires pos <= |ps| && ValidEnds(ps, ends) && Terminated(ps, pos, used, ends)
    requires RunFrom(ps, pos, used, failing, ends).1 == 0
    ensures CountNamed(ps, pos, used, ends, NCommands) == 0
    ensures i < NCommands ==> CountNamed(ps, pos, used, ends, i) <= (if i in used then 0 else 1)
    decreases |ps| - pos
  {
    if pos < |ps| {
      var step := CommandStep(ps, used, pos, CommandIndex(ps[pos]), failing, ends);
      NoErrorsDistinct(ps, step.2, step.0, failing, ends, i);
      if i < NCommands && CommandIndex(ps[pos]) == i && i !in used {
        UsedMeaning(ps, step.2, step.0, failing, ends, i);
      }
    }
  }

  /** Every unknown command name is an error. */
  lemma {:induction false} UnknownAreErrors(ps: seq<string>, pos: nat, used: set<nat>, failing: set<(nat, nat)>,
                                            ends: map<nat, nat>)
    requires pos <= |ps| && ValidEnds(ps, ends) && Terminated(ps, pos, used, ends)
    ensures RunFrom(ps, pos, used, failing, ends).1 >= CountNamed(ps, pos, used, ends, NCommands)
    decreases |ps| - pos
  {
    if pos < |ps| {
      var step := CommandStep(ps, used, pos, CommandIndex(ps[pos]), failing, ends);
      UnknownAreErrors(ps, step.2, step.0, failing, ends);
    }
  }
}
