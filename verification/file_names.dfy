/** The storage object name of an uploaded post image: the upload time in
    milliseconds, written in decimal, then `.`, then the original file's extension,
    where the extension is what `name.split('.').pop()` yields. */
module FileNames {

  // ---------------------------------------------------------------------------
  // String.prototype.split with the separator "."
  // ---------------------------------------------------------------------------

  /** Glues pieces back together with `.` between neighbours (Array.prototype.join('.')). */
  function Join(parts: seq<string>): string
    requires |parts| >= 1
  {
    if |parts| == 1 then parts[0] else parts[0] + "." + Join(parts[1..])
  }

  /** No piece holds a separator. */
  ghost predicate DotFree(parts: seq<string>)
  {
    forall i :: 0 <= i < |parts| ==> '.' !in parts[i]
  }

  /** `s.split('.')`: the maximal runs of non-`.` characters, empty runs included,
      so the result is never empty (`"".split('.')` is `[""]`). */
  function Split(s: string): (parts: seq<string>)
    ensures |parts| >= 1
    ensures DotFree(parts)
    ensures Join(parts) == s
    decreases |s|
  {
    if |s| == 0 then [""]
    else
      var rest := Split(s[1..]);
      if s[0] == '.' then
        assert s == "." + Join(rest);
        [""] + rest
      else
        var head := [s[0]] + rest[0];
        assert ([head] + rest[1..])[1..] == rest[1..];
        assert s == [s[0]] + s[1..];
        [head] + rest[1..]
  }

  lemma SplitDotFree(a: string)
    requires '.' !in a
    ensures Split(a) == [a]
  {
  }

  /** A dot-free leading piece splits off as exactly one part. */
  lemma {:induction false} SplitAfterPiece(a: string, b: string)
    requires '.' !in a
    ensures Split(a + "." + b) == [a] + Split(b)
    decreases |a|
  {
    var s := a + "." + b;
    if |a| == 0 {
      assert s == "." + b;
      assert s[1..] == b;
    } else {
      assert s[1..] == a[1..] + "." + b;
      assert '.' !in a[1..] by {
        forall i | 0 <= i < |a[1..]| ensures a[1..][i] != '.' {
          assert a[1..][i] == a[i + 1];
        }
      }
      SplitAfterPiece(a[1..], b);
      assert [a[0]] + a[1..] == a;
    }
  }

  /** Splitting undoes joining dot-free pieces: together with the `Join(Split(s)) == s`
      clause of Split, the two are inverse on dot-free piece lists. */
  lemma {:induction false} SplitJoin(parts: seq<string>)
    requires |parts| >= 1
    requires DotFree(parts)
    ensures Split(Join(parts)) == parts
    decreases |parts|
  {
    if |parts| == 1 {
      SplitDotFree(parts[0]);
    } else {
      assert '.' !in parts[0];
      SplitJoin(parts[1..]);
      SplitAfterPiece(parts[0], Join(parts[1..]));
      assert [parts[0]] + parts[1..] == parts;
    }
  }

  /** The last piece comes after a separator whenever there are at least two pieces. */
  lemma {:induction false} JoinLast(parts: seq<string>)
    requires |parts| >= 2
    ensures Join(parts) == Join(parts[..|parts| - 1]) + "." + parts[|parts| - 1]
    decreases |parts|
  {
    if |parts| > 2 {
      JoinLast(parts[1..]);
      assert parts[1..][..|parts| - 2] == parts[..|parts| - 1][1..];
    }
  }

  // ---------------------------------------------------------------------------
  // The extension: `name.split('.').pop()`
  // ---------------------------------------------------------------------------

  /** `name.split('.').pop()`: the last piece of the split. */
  function Extension(name: string): string
  {
    var parts := Split(name);
    parts[|parts| - 1]
  }

  /** `e` is the text after the last `.` of `name`, or all of `name` when it has no `.`:
      a dot-free suffix of `name` that is either the whole name or preceded by a `.`. */
  ghost predicate IsTextAfterLastDot(e: string, name: string)
  {
    && |e| <= |name|
    && name[|name| - |e|..] == e
    && '.' !in e
    && (|e| == |name| || name[|name| - |e| - 1] == '.')
  }

  lemma ExtensionIsTextAfterLastDot(name: string)
    ensures IsTextAfterLastDot(Extension(name), name)
  {
    var parts := Split(name);
    var e := Extension(name);
    assert '.' !in parts[|parts| - 1];
    if |parts| >= 2 {
      JoinLast(parts);
      var front := Join(parts[..|parts| - 1]);
      assert name == front + "." + e;
      assert name[|name| - |e|..] == e;
      assert name[|name| - |e| - 1] == '.';
    }
  }

  /** Every character inside a dot-free suffix is not a dot. */
  lemma DotFreeSuffix(e: string, name: string)
    requires IsTextAfterLastDot(e, name)
    ensures forall k :: |name| - |e| <= k < |name| ==> name[k] != '.'
  {
  }

  /** The text after the last dot is determined by the name, so it is exactly the extension. */
  lemma ExtensionUnique(e: string, name: string)
    requires IsTextAfterLastDot(e, name)
    ensures e == Extension(name)
  {
    var x := Extension(name);
    ExtensionIsTextAfterLastDot(name);
    DotFreeSuffix(e, name);
    DotFreeSuffix(x, name);
    assert |e| == |x|;
  }

  /** A name is its own extension exactly when it has no dot. */
  lemma ExtensionWithoutDot(name: string)
    ensures '.' !in name <==> Extension(name) == name
  {
  }

  // ---------------------------------------------------------------------------
  // `${Date.now()}`: a non-negative integer number written in decimal
  // ---------------------------------------------------------------------------

  predicate IsDigit(c: char)
  {
    '0' <= c <= '9'
  }

  function DigitChar(d: nat): (c: char)
    requires d < 10
    ensures IsDigit(c)
  {
    ('0' as int + d) as char
  }

  function DigitValue(c: char): nat
    requires IsDigit(c)
  {
    (c as int - '0' as int) as nat
  }

  ghost predicate AllDigits(s: string)
  {
    forall i :: 0 <= i < |s| ==> IsDigit(s[i])
  }

  /** How ECMAScript writes a whole number of milliseconds: decimal digits,
      most significant first, without leading zeros. */
  function Decimal(n: nat): (s: string)
    ensures |s| >= 1
    ensures AllDigits(s)
    ensures s[0] == '0' <==> n == 0
    ensures n == 0 ==> s == "0"
    ensures |s| > 1 ==> s[0] != '0'
    decreases n
  {
    if n < 10 then [DigitChar(n)]
    else Decimal(n / 10) + [DigitChar(n % 10)]
  }

  /** Reads digits back as a number. */
  function ParseDecimal(s: string): nat
    requires AllDigits(s)
    decreases |s|
  {
    if |s| == 0 then 0
    else ParseDecimal(s[..|s| - 1]) * 10 + DigitValue(s[|s| - 1])
  }

  lemma {:induction false} DecimalRoundTrip(n: nat)
    ensures ParseDecimal(Decimal(n)) == n
    decreases n
  {
    if n >= 10 {
      var s := Decimal(n);
      assert s[..|s| - 1] == Decimal(n / 10);
      DecimalRoundTrip(n / 10);
    }
  }

  // ---------------------------------------------------------------------------
  // The storage object name
  // ---------------------------------------------------------------------------

  /** `${now}.${ext}` */
  function StorageName(now: nat, ext: string): string
  {
    Decimal(now) + "." + ext
  }

  /** The object name splits into exactly the timestamp and the extension. */
  lemma SplitStorageName(now: nat, ext: string)
    requires '.' !in ext
    ensures Split(StorageName(now, ext)) == [Decimal(now), ext]
  {
    var d := Decimal(now);
    assert '.' !in d by {
      forall i | 0 <= i < |d| ensures d[i] != '.' {
        assert IsDigit(d[i]);
      }
    }
    SplitAfterPiece(d, ext);
    SplitDotFree(ext);
  }

  /** The object name keeps the original file's extension, and its part before the
      dot reads back as the upload time. */
  lemma StorageNameRoundTrip(now: nat, name: string)
    ensures var parts := Split(StorageName(now, Extension(name)));
            && |parts| == 2
            && Extension(StorageName(now, Extension(name))) == Extension(name)
            && AllDigits(parts[0])
            && ParseDecimal(parts[0]) == now
  {
    var ext := Extension(name);
    ExtensionIsTextAfterLastDot(name);
    SplitStorageName(now, ext);
    DecimalRoundTrip(now);
  }

  /** Two uploads get the same object name exactly when they happen in the same
      millisecond and carry the same extension; nothing else tells names apart. */
  lemma StorageNameCollision(t1: nat, n1: string, t2: nat, n2: string)
    ensures StorageName(t1, Extension(n1)) == StorageName(t2, Extension(n2))
            <==> t1 == t2 && Extension(n1) == Extension(n2)
  {
    if StorageName(t1, Extension(n1)) == StorageName(t2, Extension(n2)) {
      StorageNameRoundTrip(t1, n1);
      StorageNameRoundTrip(t2, n2);
    }
  }
}
