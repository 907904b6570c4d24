/** The parts of Rust's `str` that the decoders and readers rely on. */
module Text {
  import opened Common

  /** `char::is_whitespace`: the Unicode White_Space property. */
  predicate IsSpace(c: char) {
    || '\U{0009}' <= c <= '\U{000D}'
    || c in {'\U{0020}', '\U{0085}', '\U{00A0}', '\U{1680}', '\U{2028}', '\U{2029}', '\U{202F}', '\U{205F}', '\U{3000}'}
    || '\U{2000}' <= c <= '\U{200A}'
  }

  /** The code points by number. */
  lemma SpaceExactly(c: char)
    ensures var n := c as int;
            IsSpace(c) <==>
            || 9 <= n <= 13 || n == 0x20 || n == 0x85 || n == 0xA0 || n == 0x1680 || 0x2000 <= n <= 0x200A
            || n == 0x2028 || n == 0x2029 || n == 0x202F || n == 0x205F || n == 0x3000
  {
  }

  predicate IsTrimmed(s: string) {
    s == "" || (!IsSpace(s[0]) && !IsSpace(s[|s| - 1]))
  }

  predicate IsBlank(s: string) {
    forall c <- s :: IsSpace(c)
  }

  /** `str::trim`. */
  function Trim(s: string): (r: string)
    ensures IsTrimmed(r)
    ensures IsTrimmed(s) ==> r == s
    ensures |r| <= |s|
    ensures forall c <- r :: c in s
    decreases |s|
  {
    if s == "" then s
    else if IsSpace(s[0]) then Trim(s[1..])
    else if IsSpace(s[|s| - 1]) then Trim(s[..|s| - 1])
    else s
  }

  /** Only whitespace at the two ends is dropped. */
  lemma {:induction false} TrimExactly(s: string) returns (front: string, back: string)
    ensures s == front + Trim(s) + back && IsBlank(front) && IsBlank(back)
    decreases |s|
  {
    hide IsSpace;
    front, back := "", "";
    if s != "" && IsSpace(s[0]) {
      front, back := TrimExactly(s[1..]);
      Prepend(s, front, Trim(s[1..]), back);
      front := [s[0]] + front;
    } else if s != "" && IsSpace(s[|s| - 1]) {
      front, back := TrimExactly(s[..|s| - 1]);
      Append(s, front, Trim(s[..|s| - 1]), back);
      back := back + [s[|s| - 1]];
    }
  }

  lemma Prepend(s: string, front: string, middle: string, back: string)
    requires s != "" && s[1..] == front + middle + back
    ensures s == [s[0]] + front + middle + back
  {
    assert s == [s[0]] + s[1..];
  }

  lemma Append(s: string, front: string, middle: string, back: string)
    requires s != "" && s[..|s| - 1] == front + middle + back
    ensures s == front + middle + (back + [s[|s| - 1]])
  {
    assert s == s[..|s| - 1] + [s[|s| - 1]];
  }

  lemma {:induction false} TrimOfBlank(s: string)
    ensures Trim(s) == "" <==> IsBlank(s)
    decreases |s|
  {
    if s == "" {
    } else if IsSpace(s[0]) {
      TrimOfBlank(s[1..]);
      assert s == [s[0]] + s[1..];
    } else {
      assert !IsBlank(s);
      if IsSpace(s[|s| - 1]) {
        TrimOfBlank(s[..|s| - 1]);
        assert s[..|s| - 1][0] == s[0];
      }
    }
  }

  /** Trimming does not see a carriage return that was stripped beforehand. */
  lemma {:induction false} TrimIgnoresTrailingSpace(s: string, c: char)
    requires IsSpace(c)
    ensures Trim(s + [c]) == Trim(s)
    decreases |s|
  {
    var t := s + [c];
    if s == "" {
      assert t[1..] == "";
    } else if IsSpace(s[0]) {
      assert t[1..] == s[1..] + [c];
      TrimIgnoresTrailingSpace(s[1..], c);
    } else {
      assert t[..|t| - 1] == s;
    }
  }

  /** Lower-level split on LF: always at least one piece, no piece holds an LF. */
  function Split(s: string): (r: seq<string>)
    ensures |r| >= 1
    ensures forall l <- r :: '\n' !in l
    ensures forall l <- r, c <- l :: c in s
  {
    if s == "" then [""]
    else if s[0] == '\n' then [""] + Split(s[1..])
    else
      var t := Split(s[1..]);
      [[s[0]] + t[0]] + t[1..]
  }

  lemma {:induction false} SplitAtNewline(a: string, b: string)
    ensures Split(a + "\n" + b) == Split(a) + Split(b)
  {
    if a == "" {
      assert (a + "\n" + b)[1..] == b;
    } else {
      assert (a + "\n" + b)[1..] == a[1..] + "\n" + b;
      SplitAtNewline(a[1..], b);
    }
  }

  lemma {:induction false} SplitSingle(s: string)
    requires '\n' !in s
    ensures Split(s) == [s]
  {
    if s != "" {
      assert s[0] in s;
      SplitSingle(s[1..]);
      assert [s[0]] + s[1..] == s;
    }
  }

  /** `[String]::join("\n")`. */
  function Join(lines: seq<string>): string {
    if lines == [] then ""
    else if |lines| == 1 then lines[0]
    else lines[0] + "\n" + Join(lines[1..])
  }

  lemma {:induction false} JoinSplit(s: string)
    ensures Join(Split(s)) == s
  {
    if s != "" {
      JoinSplit(s[1..]);
      var t := Split(s[1..]);
      if s[0] == '\n' {
        assert Split(s)[1..] == t;
      } else {
        assert Split(s)[1..] == t[1..];
      }
    }
  }

  function StripCr(l: string): string {
    if l != "" && l[|l| - 1] == '\r' then l[..|l| - 1] else l
  }

  function StripAll(lines: seq<string>): (r: seq<string>)
    ensures |r| == |lines|
    ensures forall i | 0 <= i < |lines| :: r[i] == StripCr(lines[i])
  {
    seq(|lines|, i requires 0 <= i < |lines| => StripCr(lines[i]))
  }

  /** `str::lines`: a CR is dropped only in front of an LF, and a final empty piece is no line. */
  function Lines(s: string): seq<string> {
    var pieces := Split(s);
    var last := pieces[|pieces| - 1];
    StripAll(pieces[..|pieces| - 1]) + (if last == "" then [] else [last])
  }

  /** `Option<&str>` normalisation of the canonical reader: trimmed, and blank means absent. */
  function Normalized(o: Option<string>): (r: Option<string>)
    ensures r.Some? ==> IsTrimmed(r.value) && r.value != ""
  {
    if o.Some? && Trim(o.value) != "" then Some(Trim(o.value)) else None
  }

  /** Code-point order, which is SQLite's BINARY collation on UTF-8. */
  predicate StrLt(a: string, b: string) {
    if b == "" then false
    else if a == "" then true
    else a[0] < b[0] || (a[0] == b[0] && StrLt(a[1..], b[1..]))
  }

  /** The first `k` characters agree, and there `a` ends or has the smaller character. */
  predicate LessAt(a: string, b: string, k: nat) {
    k <= |a| && k < |b| && a[..k] == b[..k] && (k == |a| || a[k] < b[k])
  }

  lemma FirstAgrees(a: string, b: string, k: nat)
    requires k <= |a| && k <= |b| && a[..k] == b[..k]
    ensures k == 0 || a[0] == b[0]
  {
    assert k > 0 ==> a[..k][0] == b[..k][0];
  }

  /** The order is the one of dictionaries. */
  lemma {:induction false} StrLtExactly(a: string, b: string)
    ensures StrLt(a, b) <==> exists k: nat :: LessAt(a, b, k)
  {
    if b != "" && a != "" {
      StrLtExactly(a[1..], b[1..]);
      if a[0] == b[0] {
        if k: nat :| LessAt(a[1..], b[1..], k) {
          assert a[..k + 1] == [a[0]] + a[1..][..k] && b[..k + 1] == [b[0]] + b[1..][..k];
          assert LessAt(a, b, k + 1);
        }
        if k: nat :| LessAt(a, b, k) {
          assert k > 0;
          assert a[1..][..k - 1] == a[..k][1..] && b[1..][..k - 1] == b[..k][1..];
          assert LessAt(a[1..], b[1..], k - 1);
        }
      } else {
        assert a[0] < b[0] ==> LessAt(a, b, 0);
        forall k: nat | LessAt(a, b, k) ensures k == 0 || a[0] == b[0] { FirstAgrees(a, b, k); }
      }
    } else {
      assert b != "" ==> LessAt(a, b, 0);
    }
  }

  lemma {:induction false} StrLtTotal(a: string, b: string)
    ensures StrLt(a, b) || StrLt(b, a) || a == b
    ensures !(StrLt(a, b) && StrLt(b, a))
    ensures a == b ==> !StrLt(a, b)
  {
    if a != "" && b != "" {
      StrLtTotal(a[1..], b[1..]);
      if a[0] == b[0] && a[1..] == b[1..] {
        assert a == [a[0]] + a[1..] && b == [b[0]] + b[1..];
      }
    }
  }

  lemma {:induction false} StrLtTransitive(a: string, b: string, c: string)
    requires StrLt(a, b) && StrLt(b, c)
    ensures StrLt(a, c)
  {
    if a != "" && a[0] == b[0] == c[0] {
      StrLtTransitive(a[1..], b[1..], c[1..]);
    }
  }
}
