/**
 * The string conventions of the Java runtime that the model's text formats rely on:
 * `Integer.toString`, `Integer.parseInt`, `String.split` with a one-character
 * separator, joining with a separator, and the line view a `Scanner` gives of a file.
 */
module Text {
  import opened Wrappers

  const INT_MIN: int := -0x8000_0000
  const INT_MAX: int := 0x7fff_ffff

  /** A value of Java's 32-bit `int`. */
  predicate IsInt32(x: int) { INT_MIN <= x <= INT_MAX }

  /** A Java `int` result: `x` reduced to 32 bits, two's complement. */
  function Wrap32(x: int): (r: int)
    ensures IsInt32(r)
    ensures IsInt32(x) ==> r == x
  {
    var m := x % 0x1_0000_0000;
    if m > INT_MAX then m - 0x1_0000_0000 else m
  }

  /** Java's `/` on ints, which truncates toward zero. */
  function JavaDiv(a: int, b: int): int
    requires b != 0
  {
    if (a >= 0) == (b > 0) then Abs(a) / Abs(b) else -(Abs(a) / Abs(b))
  }

  predicate IsDigit(c: char) { '0' <= c <= '9' }

  predicate AllDigits(s: string) { forall i :: 0 <= i < |s| ==> IsDigit(s[i]) }

  function DigitChar(d: nat): char
    requires d < 10
  {
    (48 + d) as char
  }

  function DigitValue(c: char): nat
    requires IsDigit(c)
  {
    (c as int) - 48
  }

  /** Decimal digits of `n`, most significant first, without leading zeros. */
  function NatToString(n: nat): (s: string)
    ensures 1 <= |s| && AllDigits(s)
    decreases n
  {
    if n < 10 then [DigitChar(n)] else NatToString(n / 10) + [DigitChar(n % 10)]
  }

  /** `Integer.toString` (and string concatenation of an int). */
  function IntToString(x: int): string
  {
    Sign(x) + NatToString(Abs(x))
  }

  function Sign(x: int): string
  {
    if x < 0 then "-" else ""
  }

  function Abs(x: int): nat
  {
    if x < 0 then -x else x
  }

  /** The number a string of decimal digits denotes. */
  function DigitsValue(s: string): nat
    requires AllDigits(s)
    decreases |s|
  {
    if s == [] then 0 else DigitsValue(s[..|s| - 1]) * 10 + DigitValue(s[|s| - 1])
  }

  /**
   * `Integer.parseInt`: an optional sign followed by at least one ASCII digit,
   * denoting a value within 32 bits; anything else is a NumberFormatException (None).
   */
  function ParseInt(s: string): Option<int>
  {
    if |s| >= 1 && (s[0] == '-' || s[0] == '+') then
      if |s| >= 2 && AllDigits(s[1..]) then
        var m: int := DigitsValue(s[1..]);
        var v: int := if s[0] == '-' then -m else m;
        if IsInt32(v) then Some(v) else None
      else None
    else if |s| >= 1 && AllDigits(s) then
      var v := DigitsValue(s);
      if IsInt32(v) then Some(v) else None
    else None
  }

  lemma {:induction false} DigitsOfNatToString(n: nat)
    ensures DigitsValue(NatToString(n)) == n
    decreases n
  {
    var s := NatToString(n);
    if n >= 10 {
      DigitsOfNatToString(n / 10);
      assert s[..|s| - 1] == NatToString(n / 10);
    }
  }

  /** Reading back what `Integer.toString` wrote gives the same int. */
  lemma ParseIntOfIntToString(x: int)
    requires IsInt32(x)
    ensures ParseInt(IntToString(x)) == Some(x)
  {
    var d := NatToString(Abs(x));
    DigitsOfNatToString(Abs(x));
    if x < 0 {
      ParseNegative(d);
      assert IntToString(x) == "-" + d;
    } else {
      ParseDigits(d);
      assert IntToString(x) == d;
    }
  }

  lemma ParseNegative(d: string)
    requires |d| >= 1 && AllDigits(d) && IsInt32(-(DigitsValue(d) as int))
    ensures ParseInt("-" + d) == Some(-(DigitsValue(d) as int))
  {
    var s := "-" + d;
    assert s[1..] == d;
  }

  lemma ParseDigits(d: string)
    requires |d| >= 1 && AllDigits(d) && IsInt32(DigitsValue(d))
    ensures ParseInt(d) == Some(DigitsValue(d))
  {
    assert IsDigit(d[0]);
  }

  lemma IntToStringHasNo(x: int, c: char)
    requires c != '-' && !IsDigit(c)
    ensures c !in IntToString(x)
  {
    var s := IntToString(x);
    if x < 0 {
      assert s == "-" + NatToString(-x);
      assert forall i :: 1 <= i < |s| ==> s[i] == NatToString(-x)[i - 1];
    }
  }

  /** The pieces of `s` between occurrences of `c`: one more piece than there are `c`s. */
  function Pieces(s: string, c: char): (ps: seq<string>)
    ensures |ps| >= 1
    decreases |s|
  {
    if s == [] then [""]
    else if s[0] == c then [""] + Pieces(s[1..], c)
    else
      var rest := Pieces(s[1..], c);
      [[s[0]] + rest[0]] + rest[1..]
  }

  function DropTrailingEmpty(ps: seq<string>): seq<string>
    decreases |ps|
  {
    if ps != [] && ps[|ps| - 1] == "" then DropTrailingEmpty(ps[..|ps| - 1]) else ps
  }

  /**
   * `s.split(c)` for a one-character separator: the whole string when `c` does not occur,
   * otherwise the pieces with trailing empty pieces removed (leading ones are kept).
   */
  function Split(s: string, c: char): seq<string>
  {
    if c !in s then [s] else DropTrailingEmpty(Pieces(s, c))
  }

  /** The parts with `sep` between consecutive parts, built as a loop appending would build it. */
  function Join(parts: seq<string>, sep: string): string
    decreases |parts|
  {
    if parts == [] then ""
    else if |parts| == 1 then parts[0]
    else Join(parts[..|parts| - 1], sep) + sep + parts[|parts| - 1]
  }

  /** The text of a file whose lines are `lines`, each ended by a newline. */
  function LinesText(lines: seq<string>): string
    decreases |lines|
  {
    if lines == [] then "" else LinesText(lines[..|lines| - 1]) + lines[|lines| - 1] + "\n"
  }

  /** The lines `Scanner.nextLine` returns for a text: split at '\n', no empty line after a final '\n'. */
  function Lines(text: string): seq<string>
  {
    var ps := Pieces(text, '\n');
    if ps[|ps| - 1] == "" then ps[..|ps| - 1] else ps
  }

  lemma {:induction false} PiecesWithout(s: string, c: char)
    requires c !in s
    ensures Pieces(s, c) == [s]
    decreases |s|
  {
    if s != [] {
      PiecesWithout(s[1..], c);
      assert [s[0]] + s[1..] == s;
    }
  }

  /** Splitting at an occurrence of the separator splits the pieces there. */
  lemma {:induction false} PiecesAppend(a: string, c: char, b: string)
    ensures Pieces(a + [c] + b, c) == Pieces(a, c) + Pieces(b, c)
    decreases |a|
  {
    var s := a + [c] + b;
    if a == [] {
      assert s == [c] + b;
      assert s[1..] == b;
    } else {
      assert s[1..] == a[1..] + [c] + b;
      PiecesAppend(a[1..], c, b);
      PiecesCons(a, s, c, Pieces(b, c));
    }
  }

  /** One leading character shared by `a` and `s` extends their pieces alike. */
  lemma PiecesCons(a: string, s: string, c: char, tail: seq<string>)
    requires a != [] && s != [] && a[0] == s[0]
    requires Pieces(s[1..], c) == Pieces(a[1..], c) + tail
    ensures Pieces(s, c) == Pieces(a, c) + tail
  {
    if a[0] != c {
      PiecesUnfold(a, c);
      PiecesUnfold(s, c);
      ConsPiece([a[0]], Pieces(a[1..], c), tail);
    }
  }

  lemma PiecesUnfold(s: string, c: char)
    requires s != [] && s[0] != c
    ensures Pieces(s, c) == [[s[0]] + Pieces(s[1..], c)[0]] + Pieces(s[1..], c)[1..]
  {
  }

  lemma ConsPiece(x: string, r: seq<string>, tail: seq<string>)
    requires |r| >= 1
    ensures [x + (r + tail)[0]] + (r + tail)[1..] == ([x + r[0]] + r[1..]) + tail
  {
    assert (r + tail)[0] == r[0];
    assert (r + tail)[1..] == r[1..] + tail;
  }

  lemma {:induction false} PiecesOfJoin(parts: seq<string>, c: char)
    requires |parts| >= 1
    requires forall i :: 0 <= i < |parts| ==> c !in parts[i]
    ensures Pieces(Join(parts, [c]), c) == parts
    decreases |parts|
  {
    if |parts| == 1 {
      PiecesWithout(parts[0], c);
    } else {
      var init := parts[..|parts| - 1];
      PiecesOfJoin(init, c);
      PiecesAppend(Join(init, [c]), c, parts[|parts| - 1]);
      PiecesWithout(parts[|parts| - 1], c);
      assert init + [parts[|parts| - 1]] == parts;
    }
  }

  lemma JoinHasSep(parts: seq<string>, c: char)
    requires |parts| >= 2
    ensures c in Join(parts, [c])
  {
    var j := Join(parts, [c]);
    var init := Join(parts[..|parts| - 1], [c]);
    assert j == init + [c] + parts[|parts| - 1];
    assert j[|init|] == c;
  }

  lemma SplitWithout(s: string, c: char)
    requires c !in s
    ensures Split(s, c) == [s]
  {
  }

  lemma SplitWith(s: string, c: char)
    requires c in s
    ensures Split(s, c) == DropTrailingEmpty(Pieces(s, c))
  {
  }

  lemma KeepsNonEmptyLast(ps: seq<string>)
    requires ps != [] && ps[|ps| - 1] != ""
    ensures DropTrailingEmpty(ps) == ps
  {
  }

  /** `split` undoes `Join` when no part holds the separator and the last part is not empty. */
  lemma SplitOfJoin(parts: seq<string>, c: char)
    requires |parts| >= 1 && parts[|parts| - 1] != ""
    requires forall i :: 0 <= i < |parts| ==> c !in parts[i]
    ensures Split(Join(parts, [c]), c) == parts
  {
    var j := Join(parts, [c]);
    if |parts| == 1 {
      assert j == parts[0] && c !in parts[0];
      SplitWithout(j, c);
    } else {
      JoinHasSep(parts, c);
      PiecesOfJoin(parts, c);
      SplitWith(j, c);
      KeepsNonEmptyLast(parts);
    }
  }

  lemma {:induction false} LinesTextIsJoin(lines: seq<string>)
    requires |lines| >= 1
    ensures LinesText(lines) == Join(lines, "\n") + "\n"
    decreases |lines|
  {
    if |lines| > 1 {
      LinesTextIsJoin(lines[..|lines| - 1]);
    } else {
      assert lines[..0] == [];
    }
  }

  /** A text written line by line is read back as the same lines. */
  lemma LinesOfLinesText(lines: seq<string>)
    requires forall i :: 0 <= i < |lines| ==> '\n' !in lines[i]
    ensures Lines(LinesText(lines)) == lines
  {
    if lines == [] {
    } else {
      LinesTextIsJoin(lines);
      PiecesOfJoin(lines, '\n');
      var j := Join(lines, "\n");
      PiecesAppend(j, '\n', "");
      assert j + "\n" == j + ['\n'] + "";
      var ps := Pieces(LinesText(lines), '\n');
      assert ps == lines + [""];
      assert ps[..|ps| - 1] == lines;
    }
  }

  lemma {:induction false} LinesTextAppend(a: seq<string>, b: seq<string>)
    ensures LinesText(a + b) == LinesText(a) + LinesText(b)
    decreases |b|
  {
    if b == [] {
      assert a + b == a;
    } else {
      var b' := b[..|b| - 1];
      LinesTextAppend(a, b');
      assert (a + b)[..|a + b| - 1] == a + b';
    }
  }

  lemma IntToStringShape(x: int)
    ensures |IntToString(x)| >= 1
    ensures IntToString(x)[0] == '-' || IsDigit(IntToString(x)[0])
  {
    var d := NatToString(Abs(x));
    assert IsDigit(d[0]);
    if x >= 0 {
      assert IntToString(x) == d;
    }
  }

  lemma {:induction false} JoinCons(p: string, ps: seq<string>, sep: string)
    requires |ps| >= 1
    ensures Join([p] + ps, sep) == p + sep + Join(ps, sep)
    decreases |ps|
  {
    var all := [p] + ps;
    if |ps| == 1 {
      assert all[..1] == [p];
    } else {
      var init := ps[..|ps| - 1];
      JoinCons(p, init, sep);
      assert all[..|all| - 1] == [p] + init;
    }
  }

  /** Joining starts with the first part. */
  lemma {:induction false} JoinStart(parts: seq<string>, sep: string)
    requires |parts| >= 1 && parts[0] != ""
    ensures |Join(parts, sep)| >= 1 && Join(parts, sep)[0] == parts[0][0]
    decreases |parts|
  {
    if |parts| > 1 {
      var init := parts[..|parts| - 1];
      JoinStart(init, sep);
      var j := Join(init, sep);
      assert Join(parts, sep) == j + (sep + parts[|parts| - 1]);
    }
  }

  lemma JoinExtendFirst(x: string, parts: seq<string>, sep: string)
    requires |parts| >= 1
    ensures Join([x + parts[0]] + parts[1..], sep) == x + Join(parts, sep)
  {
    if |parts| > 1 {
      JoinCons(x + parts[0], parts[1..], sep);
      JoinCons(parts[0], parts[1..], sep);
      assert [parts[0]] + parts[1..] == parts;
    } else {
      assert [x + parts[0]] + parts[1..] == [x + parts[0]];
    }
  }

  /** Joining the pieces with the separator restores the text. */
  lemma {:induction false} JoinOfPieces(s: string, c: char)
    ensures Join(Pieces(s, c), [c]) == s
    decreases |s|
  {
    if s != [] {
      var rest := Pieces(s[1..], c);
      JoinOfPieces(s[1..], c);
      if s[0] == c {
        JoinCons("", rest, [c]);
        assert [c] + s[1..] == s;
      } else {
        JoinExtendFirst([s[0]], rest, [c]);
        assert [s[0]] + s[1..] == s;
      }
    }
  }

  /** No piece holds the separator. */
  lemma {:induction false} PiecesFree(s: string, c: char)
    ensures forall i :: 0 <= i < |Pieces(s, c)| ==> c !in Pieces(s, c)[i]
    decreases |s|
  {
    if s != [] {
      PiecesFree(s[1..], c);
      if s[0] != c {
        var rest := Pieces(s[1..], c);
        assert c !in [s[0]] + rest[0];
      }
    }
  }

  /** A piece is not empty when the text does not begin with the separator. */
  lemma FirstPieceNonEmpty(s: string, c: char)
    requires s != [] && s[0] != c
    ensures Pieces(s, c)[0] != ""
  {
  }

  /** A character held by no part and not by the separator is not in the joined text. */
  lemma {:induction false} JoinFree(parts: seq<string>, sep: string, c: char)
    requires c !in sep
    requires forall i :: 0 <= i < |parts| ==> c !in parts[i]
    ensures c !in Join(parts, sep)
    decreases |parts|
  {
    if |parts| > 1 {
      JoinFree(parts[..|parts| - 1], sep, c);
    }
  }

  /** Dropping trailing empty strings keeps every part up to a non-empty one. */
  lemma {:induction false} DropKeeps(ps: seq<string>, k: nat)
    requires k < |ps| && ps[k] != ""
    ensures |DropTrailingEmpty(ps)| > k
    decreases |ps|
  {
    if ps[|ps| - 1] == "" {
      DropKeeps(ps[..|ps| - 1], k);
    }
  }

  /** A text that ends in a newline is read as the pieces before that newline. */
  lemma LinesOfTerminated(s: string)
    ensures Lines(s + "\n") == Pieces(s, '\n')
  {
    PiecesAppend(s, '\n', "");
    assert s + "\n" == s + ['\n'] + "";
  }

  lemma LinesTextOfPieces(s: string)
    ensures LinesText(Pieces(s, '\n')) == s + "\n"
  {
    LinesTextIsJoin(Pieces(s, '\n'));
    JoinOfPieces(s, '\n');
  }

  /** Each part followed by `sep`, as a loop appending part and separator builds it. */
  function Terminated(parts: seq<string>, sep: string): string
    decreases |parts|
  {
    if parts == [] then "" else Terminated(parts[..|parts| - 1], sep) + parts[|parts| - 1] + sep
  }

  lemma {:induction false} TerminatedIsJoin(parts: seq<string>, sep: string)
    requires |parts| >= 1
    ensures Terminated(parts, sep) == Join(parts, sep) + sep
    decreases |parts|
  {
    if |parts| == 1 {
      assert parts[..0] == [];
    } else {
      TerminatedIsJoin(parts[..|parts| - 1], sep);
    }
  }

  lemma TerminatedStep(parts: seq<string>, i: nat, sep: string)
    requires i < |parts|
    ensures Terminated(parts[..i + 1], sep) == Terminated(parts[..i], sep) + (parts[i] + sep)
  {
    assert parts[..i + 1][..i] == parts[..i];
  }

  lemma LinesTextStep(lines: seq<string>, i: nat)
    requires i < |lines|
    ensures LinesText(lines[..i + 1]) == LinesText(lines[..i]) + (lines[i] + "\n")
  {
    assert lines[..i + 1][..i] == lines[..i];
  }

  lemma AppendAssoc(a: string, b: string, c: string)
    ensures a + b + c == a + (b + c)
  {
  }

  lemma JoinSnoc(parts: seq<string>, x: string, sep: string)
    requires |parts| >= 1
    ensures Join(parts + [x], sep) == Join(parts, sep) + sep + x
  {
    assert (parts + [x])[..|parts|] == parts;
  }

}
