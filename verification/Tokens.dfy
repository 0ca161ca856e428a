/**
 * One-pass token replacement: a text read left to right, every token found
 * replaced once, what replaces it never read again.
 */
module Tokens {

  /** A character kept as it is, or a whole token. */
  datatype Piece = Plain(c: char) | Token(text: string)

  /** The length of the token a text starts with, or 0. */
  type Matcher = string -> nat

  /** The matcher finds, at each place, the one token that starts there. */
  ghost predicate Finds(m: Matcher, isToken: string -> bool) {
    && !isToken("")
    && (forall s :: m(s) <= |s| && (m(s) > 0 ==> isToken(s[..m(s)])))
    && (forall s, n: nat | n <= |s| && isToken(s[..n]) :: m(s) == n)
  }

  function Pieces(s: string, m: Matcher): seq<Piece>
    decreases |s|
  {
    if s == "" then []
    else if 0 < m(s) <= |s| then [Token(s[..m(s)])] + Pieces(s[m(s)..], m)
    else [Plain(s[0])] + Pieces(s[1..], m)
  }

  function Raw(p: Piece): string { if p.Plain? then [p.c] else p.text }

  /** The text the pieces came from. */
  function Source(pieces: seq<Piece>): string {
    if pieces == [] then "" else Raw(pieces[0]) + Source(pieces[1..])
  }

  /** The pieces with every token replaced. */
  function Fill(pieces: seq<Piece>, f: string -> string): string {
    if pieces == [] then ""
    else (if pieces[0].Plain? then [pieces[0].c] else f(pieces[0].text)) + Fill(pieces[1..], f)
  }

  /** Every token of a text replaced, in one pass. */
  function Replace(s: string, m: Matcher, f: string -> string): string { Fill(Pieces(s, m), f) }

  /** The texts of the tokens found, in order. */
  function Found(s: string, m: Matcher): seq<string>
    decreases |s|
  {
    if s == "" then []
    else if 0 < m(s) <= |s| then [s[..m(s)]] + Found(s[m(s)..], m)
    else Found(s[1..], m)
  }

  /**
   * A reading of a text: its pieces in order, tokens that are tokens, and no
   * token starting at a plain character.
   */
  ghost predicate Reading(pieces: seq<Piece>, s: string, isToken: string -> bool) {
    && Source(pieces) == s
    && (pieces != [] ==>
        && (if pieces[0].Plain? then forall n: nat | n <= |s| :: !isToken(s[..n]) else isToken(pieces[0].text))
        && Reading(pieces[1..], Source(pieces[1..]), isToken))
  }

  lemma NoToken(s: string, k: nat, m: Matcher, isToken: string -> bool)
    requires Finds(m, isToken) && k <= |s| && m(s) == 0
    ensures !isToken(s[..k])
  {
    assert s[..0] == "";
  }

  lemma ReadToken(pieces: seq<Piece>, s: string, n: nat, isToken: string -> bool)
    requires 0 < n <= |s| && isToken(s[..n]) && Reading(pieces, s[n..], isToken)
    ensures Reading([Token(s[..n])] + pieces, s, isToken)
  {
    assert ([Token(s[..n])] + pieces)[1..] == pieces;
    assert s == s[..n] + s[n..];
  }

  lemma ReadPlain(pieces: seq<Piece>, s: string, isToken: string -> bool)
    requires s != "" && (forall n: nat | n <= |s| :: !isToken(s[..n])) && Reading(pieces, s[1..], isToken)
    ensures Reading([Plain(s[0])] + pieces, s, isToken)
  {
    assert ([Plain(s[0])] + pieces)[1..] == pieces;
    assert s == [s[0]] + s[1..];
  }

  lemma {:induction false} PiecesRead(s: string, m: Matcher, isToken: string -> bool)
    requires Finds(m, isToken)
    ensures Reading(Pieces(s, m), s, isToken)
    decreases |s|
  {
    if s == "" {
    } else {
      hide Reading;
      var n := m(s);
      if n > 0 {
        PiecesRead(s[n..], m, isToken);
        ReadToken(Pieces(s[n..], m), s, n, isToken);
      } else {
        PiecesRead(s[1..], m, isToken);
        forall k: nat | k <= |s| ensures !isToken(s[..k]) { NoToken(s, k, m, isToken); }
        ReadPlain(Pieces(s[1..], m), s, isToken);
      }
    }
  }

  /** A text has only one reading, and replacement fills it. */
  /** A piece that starts a reading is the one the matcher takes. */
  lemma FirstPiece(p: Piece, rest: string, m: Matcher, isToken: string -> bool)
    requires Finds(m, isToken)
    requires var s := Raw(p) + rest; if p.Plain? then forall n: nat | n <= |s| :: !isToken(s[..n]) else isToken(p.text)
    ensures Pieces(Raw(p) + rest, m) == [p] + Pieces(rest, m)
  {
    var s := Raw(p) + rest;
    if p.Plain? {
      assert m(s) == 0;
      assert s[1..] == rest && s[0] == p.c;
    } else {
      var n := |p.text|;
      assert s[..n] == p.text && s[n..] == rest;
      assert n > 0;
    }
  }

  lemma ReadingSplits(pieces: seq<Piece>, s: string, isToken: string -> bool)
    requires Reading(pieces, s, isToken) && pieces != []
    ensures var p, rest := pieces[0], Source(pieces[1..]);
            && s == Raw(p) + rest && Reading(pieces[1..], rest, isToken)
            && if p.Plain? then forall n: nat | n <= |s| :: !isToken(s[..n]) else isToken(p.text)
  {
  }

  lemma {:induction false} OneReading(pieces: seq<Piece>, s: string, m: Matcher, isToken: string -> bool)
    requires Finds(m, isToken) && Reading(pieces, s, isToken)
    ensures pieces == Pieces(s, m)
    decreases |pieces|
  {
    if pieces == [] {
    } else {
      hide Reading, Pieces, Finds, Raw, Source;
      var rest := Source(pieces[1..]);
      ReadingSplits(pieces, s, isToken);
      OneReading(pieces[1..], rest, m, isToken);
      FirstPiece(pieces[0], rest, m, isToken);
      assert pieces == [pieces[0]] + pieces[1..];
    }
  }

  /** Every text has exactly one reading: the pieces found from left to right. */
  lemma ReadingIsPieces(pieces: seq<Piece>, s: string, m: Matcher, isToken: string -> bool)
    requires Finds(m, isToken)
    ensures Reading(pieces, s, isToken) <==> pieces == Pieces(s, m)
  {
    hide Reading, Pieces;
    PiecesRead(s, m, isToken);
    if Reading(pieces, s, isToken) { OneReading(pieces, s, m, isToken); }
  }

  /** Replacement is what any reading of the text says: plain text kept in order, each token replaced once. */
  lemma ReplaceFillsReading(pieces: seq<Piece>, s: string, m: Matcher, isToken: string -> bool, f: string -> string)
    requires Finds(m, isToken) && Reading(pieces, s, isToken)
    ensures Replace(s, m, f) == Fill(pieces, f)
  {
    OneReading(pieces, s, m, isToken);
  }

  function TokensOf(pieces: seq<Piece>): seq<string> {
    if pieces == [] then [] else (if pieces[0].Token? then [pieces[0].text] else []) + TokensOf(pieces[1..])
  }

  /** The tokens found are those of the reading, in order. */
  lemma {:induction false} FoundAre(s: string, m: Matcher)
    ensures Found(s, m) == TokensOf(Pieces(s, m))
    decreases |s|
  {
    if s == "" {
    } else if 0 < m(s) <= |s| {
      FoundAre(s[m(s)..], m);
      assert ([Token(s[..m(s)])] + Pieces(s[m(s)..], m))[1..] == Pieces(s[m(s)..], m);
    } else {
      FoundAre(s[1..], m);
      assert ([Plain(s[0])] + Pieces(s[1..], m))[1..] == Pieces(s[1..], m);
    }
  }
}
