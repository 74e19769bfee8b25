/**
 Mount points read from the kernel's mount table (backend/internal/csi/mount.go): the octal escapes of
 proc_pid_mountinfo(5) are undone, and the scan compares the fifth field of every line.
 */
module MountField {
  import opened Options

  // ----- the kernel's side

  predicate IsEscaped(c: char) { c == ' ' || c == '\t' || c == '\n' || c == '\\' }

  /** A backslash and three octal digits. */
  function Octal(c: char): string
    requires c as int < 512
  {
    var n := c as int;
    ['\\', '0' + (n / 64) as char, '0' + (n / 8 % 8) as char, '0' + (n % 8) as char]
  }

  function Escape(p: string): string {
    if p == "" then "" else (if IsEscaped(p[0]) then Octal(p[0]) else [p[0]]) + Escape(p[1..])
  }

  // ----- undoing the escapes

  const ESCAPES := [("\\040", ' '), ("\\011", '\t'), ("\\012", '\n'), ("\\134", '\\')]

  /** The first table entry that s starts with. */
  function MatchAt(s: string, k: nat): Option<char>
    decreases |ESCAPES| - k
  {
    if k >= |ESCAPES| then None
    else if ESCAPES[k].0 <= s then Some(ESCAPES[k].1)
    else MatchAt(s, k + 1)
  }

  /** Left to right, no overlapping matches, and what was put in is not looked at again. */
  function Replace(s: string): string {
    if s == "" then ""
    else
      match MatchAt(s, 0)
      case Some(c) => [c] + Replace(if |s| >= 4 then s[4..] else "")
      case None => [s[0]] + Replace(s[1..])
  }

  function UnescapeMountField(s: string): string {
    if '\\' !in s then s else Replace(s)
  }

  /** The shortcut for fields without a backslash changes nothing. */
  lemma {:induction false} NothingToUndo(s: string)
    requires '\\' !in s
    ensures Replace(s) == s
  {
    if s != "" {
      assert MatchAt(s, 0).None? by { NoMatch(s); }
      NothingToUndo(s[1..]);
    }
  }

  lemma NoMatch(s: string)
    requires s != "" && s[0] != '\\'
    ensures MatchAt(s, 0) == None
  {
    assert forall k :: 0 <= k < 4 ==> ESCAPES[k].0[0] == '\\';
    assert MatchAt(s, 4) == None;
    assert MatchAt(s, 3) == None;
    assert MatchAt(s, 2) == None;
    assert MatchAt(s, 1) == None;
  }

  lemma OctalMatches(c: char, rest: string)
    requires IsEscaped(c)
    ensures MatchAt(Octal(c) + rest, 0) == Some(c) && |Octal(c)| == 4
  {
    var s := Octal(c) + rest;
    assert s[..4] == Octal(c);
    var k := if c == ' ' then 0 else if c == '\t' then 1 else if c == '\n' then 2 else 3;
    assert ESCAPES[k].0 == Octal(c);
    assert ESCAPES[k].0 <= s;
    assert s[1] == Octal(c)[1] && s[2] == Octal(c)[2] && s[3] == Octal(c)[3];
    assert forall j :: 0 <= j < k ==> ESCAPES[j].0[1] != s[1] || ESCAPES[j].0[2] != s[2] || ESCAPES[j].0[3] != s[3];
    assert MatchAt(s, k) == Some(c);
    if k >= 3 { assert MatchAt(s, 2) == Some(c); }
    if k >= 2 { assert MatchAt(s, 1) == Some(c); }
  }

  lemma {:induction false} ReplaceUndoes(p: string)
    ensures Replace(Escape(p)) == p
  {
    if p != "" {
      var s := Escape(p);
      ReplaceUndoes(p[1..]);
      if IsEscaped(p[0]) {
        OctalMatches(p[0], Escape(p[1..]));
        assert s[4..] == Escape(p[1..]);
      } else {
        NoMatch(s);
        assert s[1..] == Escape(p[1..]);
      }
    }
  }

  /** Whatever the path holds, text that looks like an escape included, its escaped form gives it back. */
  lemma UnescapeUndoesEscape(p: string)
    ensures UnescapeMountField(Escape(p)) == p
  {
    ReplaceUndoes(p);
    if '\\' !in Escape(p) {
      NothingToUndo(Escape(p));
    }
  }

  predicate EscapeAt(s: string, i: int) {
    0 <= i <= |s| - 4 && s[i..i + 4] in {"\\040", "\\011", "\\012", "\\134"}
  }

  /** Backslashes that begin none of the four escapes are left as they are. */
  lemma {:induction false} OtherTextStays(s: string)
    requires forall i :: !EscapeAt(s, i)
    ensures UnescapeMountField(s) == s && Replace(s) == s
  {
    if s != "" {
      forall i ensures !EscapeAt(s[1..], i) {
        assert !EscapeAt(s, i + 1);
        if 0 <= i <= |s[1..]| - 4 {
          assert s[1..][i..i + 4] == s[i + 1..i + 1 + 4];
        }
      }
      OtherTextStays(s[1..]);
      assert !EscapeAt(s, 0);
      NoEscapeMatches(s);
    }
  }

  lemma NoEscapeMatches(s: string)
    requires !EscapeAt(s, 0)
    ensures MatchAt(s, 0) == None
  {
    assert forall k: nat :: k < 4 && ESCAPES[k].0 <= s ==> s[0..4] == ESCAPES[k].0;
    assert MatchAt(s, 4) == None;
    assert MatchAt(s, 3) == None;
    assert MatchAt(s, 2) == None;
    assert MatchAt(s, 1) == None;
  }

  // ----- fields of a line

  /** White space as Unicode and Go's strings.Fields see it. */
  predicate IsSpace(c: char) {
    || '\t' <= c <= '\r' || c == ' ' || c == '\U{85}' || c == '\U{A0}' || c == '\U{1680}'
    || '\U{2000}' <= c <= '\U{200A}' || c == '\U{2028}' || c == '\U{2029}' || c == '\U{202F}'
    || c == '\U{205F}' || c == '\U{3000}'
  }

  function WordEnd(s: string): (k: nat)
    ensures k <= |s| && (s != "" && !IsSpace(s[0]) ==> k > 0)
  {
    if s == "" || IsSpace(s[0]) then 0 else 1 + WordEnd(s[1..])
  }

  /** Maximal runs of other characters. */
  function Fields(s: string): seq<string>
    decreases |s|
  {
    if s == "" then []
    else if IsSpace(s[0]) then Fields(s[1..])
    else [s[..WordEnd(s)]] + Fields(s[WordEnd(s)..])
  }

  predicate IsField(f: string) { f != "" && forall c <- f :: !IsSpace(c) }

  lemma {:induction false} EndOfField(f: string, rest: string)
    requires (forall c <- f :: !IsSpace(c)) && rest != "" && IsSpace(rest[0])
    ensures WordEnd(f + rest) == |f|
  {
    if f == "" {
      assert f + rest == rest;
    } else {
      assert (f + rest)[1..] == f[1..] + rest;
      EndOfField(f[1..], rest);
    }
  }

  lemma FirstField(f: string, sep: char, rest: string)
    requires IsField(f) && IsSpace(sep)
    ensures Fields(f + [sep] + rest) == [f] + Fields(rest)
  {
    var tail := [sep] + rest;
    assert f + [sep] + rest == f + tail;
    EndOfField(f, tail);
    assert (f + tail)[..|f|] == f && (f + tail)[|f|..] == tail;
    assert tail[1..] == rest;
  }

  // ----- the scan

  predicate Names(line: string, abs: string) {
    |Fields(line)| >= 5 && UnescapeMountField(Fields(line)[4]) == abs
  }

  /** lines is None when the table cannot be opened; cut tells that reading it stopped with an error. */
  method IsMountPoint(lines: Option<seq<string>>, cut: bool, abs: string) returns (found: bool, failed: bool)
    ensures found <==> lines.Some? && exists line <- lines.value :: Names(line, abs)
    ensures failed <==> lines.None? || (!found && cut)
  {
    if lines.None? {
      return false, true;
    }
    var ls := lines.value;
    for i := 0 to |ls|
      invariant forall j :: 0 <= j < i ==> !Names(ls[j], abs)
    {
      var fields := Fields(ls[i]);
      if |fields| < 5 {
        continue;
      }
      if UnescapeMountField(fields[4]) == abs {
        assert ls[i] in ls;
        return true, false;
      }
    }
    return false, cut;
  }

  /** One line of the table: three plain fields, two escaped paths, and what follows. */
  datatype Entry = Entry(id: string, parent: string, device: string, root: string, mountPoint: string, rest: string)

  function Line(e: Entry): string {
    e.id + " " + (e.parent + " " + (e.device + " " + (Escape(e.root) + " " + (Escape(e.mountPoint) + " " + e.rest))))
  }

  /** White space the kernel leaves as it is. */
  predicate Stray(c: char) { IsSpace(c) && !IsEscaped(c) }

  /** These code points and no others: vertical tab, form feed, carriage return, and white space beyond ASCII. */
  lemma StrayAre(c: char)
    ensures Stray(c) <==>
            || c as int in {0x0B, 0x0C, 0x0D, 0x85, 0xA0, 0x1680, 0x2028, 0x2029, 0x202F, 0x205F, 0x3000}
            || 0x2000 <= c as int <= 0x200A
  {
  }

  /**
   Identifiers and device are plain. A mount point is an absolute path, a root need not be one; neither
   begins with stray space, and past that they may hold any characters.
   */
  predicate Wellformed(e: Entry) {
    && IsField(e.id) && IsField(e.parent) && IsField(e.device)
    && e.root != "" && !Stray(e.root[0]) && e.mountPoint != "" && e.mountPoint[0] == '/'
  }

  /** Where a path's first run of characters other than stray space ends. */
  function FirstStray(p: string): (k: nat)
    ensures k <= |p| && (forall c <- p[..k] :: !Stray(c)) && (k < |p| ==> Stray(p[k]))
    ensures k == |p| <==> forall c <- p :: !Stray(c)
  {
    if p == "" || Stray(p[0]) then 0
    else
      var k := FirstStray(p[1..]);
      assert p[..k + 1] == [p[0]] + p[1..][..k] && p == [p[0]] + p[1..];
      k + 1
  }

  /** The pieces stray space cuts a path into. */
  function Pieces(p: string): seq<string>
    decreases |p|
  {
    if p == "" then []
    else if Stray(p[0]) then Pieces(p[1..])
    else [p[..FirstStray(p)]] + Pieces(p[FirstStray(p)..])
  }

  function Escapes(ps: seq<string>): seq<string> { if ps == [] then [] else [Escape(ps[0])] + Escapes(ps[1..]) }

  /** What the scan takes for the line's mount point: the second piece of root and mount point together. */
  function Seen(e: Entry): string
    requires Wellformed(e)
  {
    FirstPiece(e.root);
    FirstPiece(e.mountPoint);
    (Pieces(e.root) + Pieces(e.mountPoint))[1]
  }

  lemma FirstPiece(p: string)
    requires p != "" && !Stray(p[0])
    ensures Pieces(p) != [] && Pieces(p)[0] == p[..FirstStray(p)]
  {
  }

  lemma {:induction false} EscapedIsField(p: string)
    requires forall c <- p :: !Stray(c)
    ensures forall c <- Escape(p) :: !IsSpace(c)
    ensures p != "" ==> IsField(Escape(p))
  {
    if p != "" {
      EscapedIsField(p[1..]);
      assert p[0] in p && forall c <- p[1..] :: c in p;
      if IsEscaped(p[0]) {
        assert forall c <- Octal(p[0]) :: c == '\\' || '0' <= c <= '7';
        assert forall c: char :: c == '\\' || '0' <= c <= '7' ==> !IsSpace(c);
      }
    }
  }

  lemma EscapesAt(ps: seq<string>, i: nat)
    requires i < |ps|
    ensures |Escapes(ps)| == |ps| && Escapes(ps)[i] == Escape(ps[i])
  {
    if i > 0 { EscapesAt(ps[1..], i - 1); } else if |ps| > 1 { EscapesAt(ps[1..], 0); }
  }

  lemma {:induction false} EscapesAppend(a: seq<string>, b: seq<string>)
    ensures Escapes(a + b) == Escapes(a) + Escapes(b)
  {
    if a == [] {
      assert a + b == b;
    } else {
      assert (a + b)[1..] == a[1..] + b;
      EscapesAppend(a[1..], b);
    }
  }

  /** An escaped path in a line gives its pieces, each escaped, as fields of their own. */
  lemma {:induction false} FieldsOfPath(p: string, rest: string)
    ensures Fields(Escape(p) + " " + rest) == Escapes(Pieces(p)) + Fields(rest)
    decreases |p|
  {
    hide IsSpace;
    BlankIsSpace();
    if p == "" {
      assert Escape(p) + " " + rest == " " + rest && (" " + rest)[1..] == rest;
    } else if Stray(p[0]) {
      assert Escape(p) + " " + rest == [p[0]] + (Escape(p[1..]) + " " + rest);
      FieldsOfPath(p[1..], rest);
    } else {
      FieldsOfPiece(p, rest);
    }
  }

  lemma {:induction false} FieldsOfPiece(p: string, rest: string)
    requires p != "" && !Stray(p[0])
    ensures Fields(Escape(p) + " " + rest) == Escapes(Pieces(p)) + Fields(rest)
    decreases |p|, 0
  {
    hide IsSpace, Fields, Escape, Escapes;
    BlankIsSpace();
    var k := FirstStray(p);
    var first := Escape(p[..k]);
    EscapedIsField(p[..k]);
    if k == |p| {
      assert p[..k] == p && p[k..] == "";
      FirstField(first, ' ', rest);
      OneEscaped(p);
      assert Pieces(p) == [p];
    } else {
      SplitAtStray(p, k);
      var after := p[k + 1..];
      assert Escape(p) + " " + rest == first + [p[k]] + (Escape(after) + " " + rest);
      FirstField(first, p[k], Escape(after) + " " + rest);
      FieldsOfPath(after, rest);
      assert p[k..][0] == p[k] && p[k..][1..] == after;
      assert Pieces(p) == [p[..k]] + Pieces(after);
      EscapesAppend([p[..k]], Pieces(after));
      OneEscaped(p[..k]);
    }
  }

  lemma OneEscaped(p: string)
    ensures Escapes([p]) == [Escape(p)]
  {
  }

  lemma FieldsOfLine(e: Entry)
    requires Wellformed(e)
    ensures Fields(Line(e)) == [e.id, e.parent, e.device] + Escapes(Pieces(e.root) + Pieces(e.mountPoint))
            + Fields(e.rest)
  {
    hide Fields, IsSpace, Escape, Escapes, Pieces;
    BlankIsSpace();
    var t4 := Escape(e.mountPoint) + " " + e.rest;
    var t3 := Escape(e.root) + " " + t4;
    var t2 := e.device + " " + t3;
    FieldsOfPath(e.mountPoint, e.rest);
    FieldsOfPath(e.root, t4);
    EscapesAppend(Pieces(e.root), Pieces(e.mountPoint));
    FirstField(e.device, ' ', t3);
    FirstField(e.parent, ' ', t2);
    FirstField(e.id, ' ', e.parent + " " + t2);
  }

  lemma BlankIsSpace()
    ensures IsSpace(' ')
  {
  }

  lemma {:induction false} EscapeAppend(a: string, b: string)
    ensures Escape(a + b) == Escape(a) + Escape(b)
  {
    if a == "" {
      assert a + b == b;
    } else {
      assert (a + b)[1..] == a[1..] + b;
      EscapeAppend(a[1..], b);
    }
  }

  lemma SplitAtStray(p: string, k: nat)
    requires k < |p| && Stray(p[k])
    ensures Escape(p) == Escape(p[..k]) + [p[k]] + Escape(p[k + 1..])
  {
    assert p == p[..k] + p[k..] && p[k..][1..] == p[k + 1..];
    EscapeAppend(p[..k], p[k..]);
  }

  /** A line names exactly one path, whatever its fields hold. */
  lemma NamesSeen(e: Entry, abs: string)
    requires Wellformed(e)
    ensures Names(Line(e), abs) <==> abs == Seen(e)
  {
    hide Fields, Escape, Escapes, Pieces, UnescapeMountField;
    FirstPiece(e.root);
    FirstPiece(e.mountPoint);
    var ps := Pieces(e.root) + Pieces(e.mountPoint);
    FieldsOfLine(e);
    EscapesAt(ps, 1);
    UnescapeUndoesEscape(ps[1]);
  }

  /**
   The scan sees a mount exactly when, root in one piece, the mount point has no white space that the kernel
   leaves as it is, or, root in more pieces, the second of them happens to be the mount point.
   */
  lemma SeesMountIff(e: Entry)
    requires Wellformed(e)
    ensures Names(Line(e), e.mountPoint) <==>
            if |Pieces(e.root)| == 1 then forall c <- e.mountPoint :: !Stray(c) else Pieces(e.root)[1] == e.mountPoint
  {
    hide Pieces;
    FirstPiece(e.root);
    FirstPiece(e.mountPoint);
    NamesSeen(e, e.mountPoint);
    var k := FirstStray(e.mountPoint);
    assert |e.mountPoint[..k]| == k;
    assert k == |e.mountPoint| ==> e.mountPoint[..k] == e.mountPoint;
  }

  /**
   On any table the scan answers whether some line is taken for the path. Where every line is taken for its
   own mount point, that is whether the path is mounted.
   */
  lemma ScanIsExact(lines: seq<string>, entries: seq<Entry>, abs: string)
    requires |lines| == |entries| && forall i :: 0 <= i < |lines| ==>
               Wellformed(entries[i]) && lines[i] == Line(entries[i])
    ensures (exists line <- lines :: Names(line, abs)) <==> exists i :: 0 <= i < |entries| && Seen(entries[i]) == abs
    ensures (forall i :: 0 <= i < |entries| ==> Seen(entries[i]) == entries[i].mountPoint) ==>
              ((exists line <- lines :: Names(line, abs)) <==>
               exists i :: 0 <= i < |entries| && entries[i].mountPoint == abs)
  {
    hide Seen, Wellformed, Line, Names;
    forall i | 0 <= i < |lines| ensures Names(lines[i], abs) <==> Seen(entries[i]) == abs {
      NamesSeen(entries[i], abs);
    }
    if i :| 0 <= i < |entries| && Seen(entries[i]) == abs {
      assert lines[i] in lines;
    }
    if line :| line in lines && Names(line, abs) {
      var i :| 0 <= i < |lines| && lines[i] == line;
      assert Seen(entries[i]) == abs;
    }
  }

  /** A clean path is one piece, and one stray space between clean parts makes two. */
  lemma PiecesOfClean(a: string)
    requires a != "" && forall c <- a :: !Stray(c)
    ensures Pieces(a) == [a]
  {
    assert FirstStray(a) == |a| && a[..|a|] == a && a[|a|..] == "";
  }

  lemma PiecesOfCut(a: string, c: char, b: string)
    requires a != "" && b != "" && Stray(c) && (forall x <- a :: !Stray(x)) && forall x <- b :: !Stray(x)
    ensures Pieces(a + [c] + b) == [a, b]
  {
    var p, k := a + [c] + b, FirstStray(a + [c] + b);
    assert p[..|a|] == a && p[|a|] == c && p[|a|..] == [c] + b && ([c] + b)[1..] == b;
    PiecesOfClean(b);
  }

  predicate Letter(c: char) { c == '/' || 'a' <= c <= 'z' }

  lemma LettersAreClean(p: string)
    requires forall c <- p :: Letter(c)
    ensures forall c <- p :: !Stray(c)
  {
  }

  const WIDE := '\U{3000}'

  function Mounted(root: string, mountPoint: string): Entry {
    Entry("36", "25", "8:1", root, mountPoint, "rw - ext4 /dev/sda rw")
  }

  /** A volume name with an ideographic space hides its mount, and one in the root field hides whatever is mounted. */
  lemma StrayHidesMount()
    ensures var e := Mounted("/", "/mnt/a" + [WIDE] + "b");
            Wellformed(e) && !Names(Line(e), e.mountPoint) && Names(Line(e), "/mnt/a")
    ensures var e := Mounted("/a" + [WIDE] + "b", "/m");
            Wellformed(e) && !Names(Line(e), e.mountPoint) && Names(Line(e), "b")
  {
    hide Pieces, Names, Line;
    LettersAreClean("/");
    LettersAreClean("/mnt/a");
    LettersAreClean("/a");
    LettersAreClean("/m");
    LettersAreClean("b");
    PiecesOfClean("/");
    PiecesOfClean("/m");
    PiecesOfCut("/mnt/a", WIDE, "b");
    PiecesOfCut("/a", WIDE, "b");
    var e, f := Mounted("/", "/mnt/a" + [WIDE] + "b"), Mounted("/a" + [WIDE] + "b", "/m");
    NamesSeen(e, e.mountPoint);
    NamesSeen(e, "/mnt/a");
    NamesSeen(f, f.mountPoint);
    NamesSeen(f, "b");
  }
}
