/** The image list of a listing row travels as one string, the URLs joined
    with commas; the service cuts it back into a list with Java's
    `String.split(",")`. This module defines that split exactly, the join it
    undoes, and when the two are inverse to each other. */
module ImageUrls {

  /** An image URL as the image store hands it out. */
  type Url = string

  /** The separator between image URLs in a listing row. */
  const Separator: char := ','

  /** The URLs with one Separator between neighbours: what the listing query
      puts in the image column. */
  function Join(parts: seq<string>): string
  {
    if parts == [] then ""
    else if |parts| == 1 then parts[0]
    else parts[0] + [Separator] + Join(parts[1..])
  }

  /** s cut at every Separator, empty pieces kept: k separators give k + 1
      pieces, and joining them gives s back. */
  function Pieces(s: string): (r: seq<string>)
    ensures |r| >= 1
    ensures forall i :: 0 <= i < |r| ==> Separator !in r[i]
    ensures Join(r) == s
    ensures s != [] && s[|s| - 1] != Separator ==> r[|r| - 1] != ""
    ensures (forall i :: 0 <= i < |r| ==> r[i] == "") <==> (forall j :: 0 <= j < |s| ==> s[j] == Separator)
    decreases |s|
  {
    if s == [] then [""]
    else
      var rest := Pieces(s[1..]);
      if s[0] == Separator then
        assert ([""] + rest)[1..] == rest;
        [""] + rest
      else
        assert s == [s[0]] + s[1..];
        var r := [[s[0]] + rest[0]] + rest[1..];
        assert r[1..] == rest[1..];
        r
  }

  /** parts without its trailing empty strings. */
  function DropTrailingEmpty(parts: seq<string>): (r: seq<string>)
    ensures r <= parts
    ensures r == [] || r[|r| - 1] != ""
    ensures forall i :: |r| <= i < |parts| ==> parts[i] == ""
    decreases |parts|
  {
    if parts != [] && parts[|parts| - 1] == "" then DropTrailingEmpty(parts[..|parts| - 1])
    else parts
  }

  /** Java's `s.split(",")`: a string without a comma comes back whole (so ""
      gives [""]); otherwise s is cut at every comma and the trailing empty
      pieces are dropped (so "a,b," gives ["a", "b"] and "," gives []). */
  function Split(s: string): (r: seq<Url>)
    ensures forall i :: 0 <= i < |r| ==> Separator !in r[i]
    ensures r == [] <==> s != [] && forall j :: 0 <= j < |s| ==> s[j] == Separator
    ensures r != [] && r[|r| - 1] == "" ==> s == "" && r == [""]
  {
    if Separator !in s then
      assert s != [] ==> s[0] in s;
      [s]
    else DropTrailingEmpty(Pieces(s))
  }

  /** A string that does not end with a comma is what its pieces join to. */
  lemma SplitJoin(s: string)
    requires s == [] || s[|s| - 1] != Separator
    ensures Join(Split(s)) == s
  {
  }

  /** A string free of separators is a single piece. */
  lemma PiecesOfPlain(w: string)
    requires Separator !in w
    ensures Pieces(w) == [w]
  {
  }

  /** Cutting `w,t` for separator-free w yields w followed by the pieces of t. */
  lemma {:induction false} PiecesAfterPlain(w: string, t: string)
    requires Separator !in w
    ensures Pieces(w + [Separator] + t) == [w] + Pieces(t)
    decreases |w|
  {
    var s := w + [Separator] + t;
    if w == [] {
      assert s[1..] == t;
    } else {
      assert s[1..] == w[1..] + [Separator] + t;
      PiecesAfterPlain(w[1..], t);
      assert [w[0]] + w[1..] == w;
    }
  }

  /** Cutting a join of separator-free parts gives the parts back. */
  lemma {:induction false} PiecesOfJoin(parts: seq<string>)
    requires |parts| >= 1
    requires forall i :: 0 <= i < |parts| ==> Separator !in parts[i]
    ensures Pieces(Join(parts)) == parts
    decreases |parts|
  {
    if |parts| == 1 {
      PiecesOfPlain(parts[0]);
    } else {
      PiecesAfterPlain(parts[0], Join(parts[1..]));
      PiecesOfJoin(parts[1..]);
      assert [parts[0]] + parts[1..] == parts;
    }
  }

  /** Splitting the joined list gives the list back, provided no URL holds a
      comma and the last one is not empty (a single URL may be anything
      comma-free, "" included). */
  lemma {:induction false} JoinSplit(parts: seq<Url>)
    requires |parts| >= 1
    requires forall i :: 0 <= i < |parts| ==> Separator !in parts[i]
    requires |parts| == 1 || parts[|parts| - 1] != ""
    ensures Split(Join(parts)) == parts
  {
    if |parts| == 1 {
      assert Join(parts) == parts[0];
    } else {
      var s := Join(parts);
      assert s[|parts[0]|] == Separator;
      PiecesOfJoin(parts);
      assert DropTrailingEmpty(parts) == parts;
    }
  }
}
