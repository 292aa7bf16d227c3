/** String helpers with the semantics of the JavaScript string methods the scripts call. */
module Text {

  /** `String.prototype.startsWith`. */
  predicate StartsWith(s: string, prefix: string) {
    |prefix| <= |s| && s[..|prefix|] == prefix
  }

  /** `String.prototype.endsWith`. */
  predicate EndsWith(s: string, suffix: string) {
    |suffix| <= |s| && s[|s| - |suffix|..] == suffix
  }

  /** `Array.prototype.join(sep)` on an array of strings. */
  function Join(parts: seq<string>, sep: string): string
    decreases |parts|
  {
    if parts == [] then ""
    else if |parts| == 1 then parts[0]
    else parts[0] + sep + Join(parts[1..], sep)
  }

  /** No character of `s` satisfies `isSep`. */
  predicate Free(s: string, isSep: char -> bool) {
    forall i :: 0 <= i < |s| ==> !isSep(s[i])
  }

  /** The number of characters of `s` satisfying `isSep`. */
  function Count(s: string, isSep: char -> bool): nat
    decreases |s|
  {
    if s == [] then 0 else (if isSep(s[0]) then 1 else 0) + Count(s[1..], isSep)
  }

  /**
   * `String.prototype.split` with a one-character pattern: the pieces between separators,
   * empty pieces included, so an empty string splits into one empty piece.
   */
  function Split(s: string, isSep: char -> bool): (r: seq<string>)
    ensures |r| >= 1
    decreases |s|
  {
    if s == [] then [""]
    else
      var rest := Split(s[1..], isSep);
      if isSep(s[0]) then [""] + rest
      else [[s[0]] + rest[0]] + rest[1..]
  }

  /** `s` with every character satisfying `isSep` replaced by `c`, everything else kept. */
  function ReplaceWhere(s: string, isSep: char -> bool, c: char): (r: string)
    ensures |r| == |s|
    ensures forall i :: 0 <= i < |s| ==> r[i] == if isSep(s[i]) then c else s[i]
  {
    seq(|s|, i requires 0 <= i < |s| => if isSep(s[i]) then c else s[i])
  }

  /** Splitting yields one more piece than there are separators. */
  lemma {:induction false} SplitCount(s: string, isSep: char -> bool)
    ensures |Split(s, isSep)| == Count(s, isSep) + 1
    decreases |s|
  {
    if s != [] {
      SplitCount(s[1..], isSep);
    }
  }

  /** No piece of a split contains a separator. */
  lemma {:induction false} SplitPiecesFree(s: string, isSep: char -> bool)
    ensures forall k :: 0 <= k < |Split(s, isSep)| ==> Free(Split(s, isSep)[k], isSep)
    decreases |s|
  {
    if s != [] {
      SplitPiecesFree(s[1..], isSep);
      var rest := Split(s[1..], isSep);
      if !isSep(s[0]) {
        var head := [s[0]] + rest[0];
        assert Free(rest[0], isSep);
        assert forall i :: 1 <= i < |head| ==> head[i] == rest[0][i - 1];
      }
    }
  }

  lemma JoinCons(x: string, ys: seq<string>, sep: string)
    requires |ys| >= 1
    ensures Join([x] + ys, sep) == x + sep + Join(ys, sep)
  {
    assert ([x] + ys)[1..] == ys;
  }

  /** A join of at least one part starts with the first part; the join of nothing is empty. */
  lemma JoinStartsWithFirst(parts: seq<string>, sep: string)
    ensures parts == [] ==> Join(parts, sep) == ""
    ensures parts != [] ==> StartsWith(Join(parts, sep), parts[0])
  {
    if |parts| > 1 {
      JoinCons(parts[0], parts[1..], sep);
      assert [parts[0]] + parts[1..] == parts;
    }
  }

  lemma JoinHead(x: string, y: string, ys: seq<string>, sep: string)
    ensures Join([x + y] + ys, sep) == x + Join([y] + ys, sep)
  {
    if ys == [] {
    } else {
      JoinCons(x + y, ys, sep);
      JoinCons(y, ys, sep);
    }
  }

  /** Joining the pieces of a split with `c` puts `c` where each separator stood. */
  lemma {:induction false} JoinSplit(s: string, isSep: char -> bool, c: char)
    ensures Join(Split(s, isSep), [c]) == ReplaceWhere(s, isSep, c)
    decreases |s|
  {
    if s != [] {
      var rest := Split(s[1..], isSep);
      JoinSplit(s[1..], isSep, c);
      assert ReplaceWhere(s, isSep, c) == [if isSep(s[0]) then c else s[0]] + ReplaceWhere(s[1..], isSep, c);
      if isSep(s[0]) {
        JoinCons("", rest, [c]);
      } else {
        assert rest == [rest[0]] + rest[1..];
        JoinHead([s[0]], rest[0], rest[1..], [c]);
      }
    }
  }

  lemma {:induction false} SplitFreePrefix(x: string, c: char, y: string, isSep: char -> bool)
    requires Free(x, isSep) && isSep(c)
    ensures Split(x + [c] + y, isSep) == [x] + Split(y, isSep)
    decreases |x|
  {
    if x == [] {
      assert x + [c] + y == [c] + y;
      assert ([c] + y)[1..] == y;
    } else {
      assert (x + [c] + y)[0] == x[0];
      assert (x + [c] + y)[1..] == x[1..] + [c] + y;
      SplitFreePrefix(x[1..], c, y, isSep);
      assert [x[0]] + x[1..] == x;
    }
  }

  lemma {:induction false} SplitFree(x: string, isSep: char -> bool)
    requires Free(x, isSep)
    ensures Split(x, isSep) == [x]
    decreases |x|
  {
    if x != [] {
      SplitFree(x[1..], isSep);
      assert [x[0]] + x[1..] == x;
    }
  }

  /**
   * Splitting a join undoes it when the join character is a separator and no part contains one:
   * the parts come back exactly, in order.
   */
  lemma {:induction false} SplitJoin(parts: seq<string>, c: char, isSep: char -> bool)
    requires |parts| >= 1 && isSep(c)
    requires forall k :: 0 <= k < |parts| ==> Free(parts[k], isSep)
    ensures Split(Join(parts, [c]), isSep) == parts
    decreases |parts|
  {
    if |parts| == 1 {
      SplitFree(parts[0], isSep);
    } else {
      SplitJoin(parts[1..], c, isSep);
      SplitFreePrefix(parts[0], c, Join(parts[1..], [c]), isSep);
      assert [parts[0]] + parts[1..] == parts;
    }
  }
}
