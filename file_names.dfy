/**
 * `truncateFileName`, which the contest page and the image, video and review steps each define
 * with the same body, together with the two JavaScript string methods it uses.
 */
module FileNames {

  /** How `String.prototype.slice` turns an argument into a position: a negative value counts from
      the end, and the result is clamped to `0..len`. */
  function ClampIndex(i: int, len: nat): (r: nat)
    ensures r <= len
    ensures 0 <= i <= len ==> r == i
    ensures i < 0 ==> r == if len + i < 0 then 0 else len + i
    ensures i > len ==> r == len
  {
    if i < 0 then (if len + i < 0 then 0 else len + i) else if i > len then len else i
  }

  /** `s.slice(start, end)`. */
  function Slice(s: string, start: int, end: int): (r: string)
    ensures |r| <= |s|
    ensures 0 <= start <= end <= |s| ==> r == s[start..end]
  {
    var from, to := ClampIndex(start, |s|), ClampIndex(end, |s|);
    if from < to then s[from..to] else []
  }

  /** `s.lastIndexOf(c)`: the position of the last `c`, or -1 when there is none. */
  function LastIndexOf(s: string, c: char): (r: int)
    ensures -1 <= r < |s|
    ensures r == -1 <==> c !in s
    ensures r >= 0 ==> s[r] == c && forall j | r < j < |s| :: s[j] != c
  {
    if |s| == 0 then -1
    else if s[|s| - 1] == c then |s| - 1
    else
      var r := LastIndexOf(s[..|s| - 1], c);
      assert c in s[..|s| - 1] ==> c in s;
      assert c in s ==> c in s[..|s| - 1] by {
        if c in s {
          var k :| 0 <= k < |s| && s[k] == c;
          assert s[..|s| - 1][k] == c;
        }
      }
      r
  }

  /** The extension `truncateFileName` keeps: from the last '.' to the end, or "" without a dot. */
  function Extension(name: string): (ext: string)
    ensures ext == [] || (ext[0] == '.' && '.' !in ext[1..])
    ensures |ext| <= |name| && ext == name[|name| - |ext|..]
  {
    var i := LastIndexOf(name, '.');
    if i != -1 then
      assert name[i..][1..] == name[i + 1..];
      Slice(name, i, |name|)
    else []
  }

  /**
   * `truncateFileName(name, maxLength)` as written: a name that fits is kept; otherwise the name
   * is cut and "..." and the extension are appended. When the extension does not fit, the cut
   * position `maxLength - ext.length - 3` is negative and `slice` counts it from the end of the
   * name (see TruncateCanLengthen).
   */
  function TruncateFileName(name: string, maxLength: int): (r: string)
    ensures |name| <= maxLength ==> r == name
    ensures |name| > maxLength ==> |r| >= |Extension(name)| + 3 && r[|r| - |Extension(name)|..] == Extension(name)
  {
    if |name| <= maxLength then name
    else
      var ext := Extension(name);
      Slice(name, 0, maxLength - |ext| - 3) + "..." + ext
  }

  /** When the extension and the ellipsis fit, a long name becomes exactly `maxLength` characters:
      a prefix of the name, then "...", then the extension. */
  lemma TruncateFits(name: string, maxLength: int)
    requires |name| > maxLength && |Extension(name)| + 3 <= maxLength
    ensures var ext := Extension(name); var r := TruncateFileName(name, maxLength);
      && |r| == maxLength
      && r == name[..maxLength - |ext| - 3] + "..." + ext
  {
  }

  /** The name and limit that show the discrepancy: the extension is 18 characters, so the cut
      position is 15 - 18 - 3 = -6, `slice(0, -6)` keeps 13 characters, and the "truncated" name has
      13 + 3 + 18 = 34 characters, longer than the 19-character original. */
  lemma TruncateCanLengthen()
    ensures var name := "a.abcdefghijklmnopq";
      |TruncateFileName(name, 15)| == 34 > |name|
  {
    var name := "a.abcdefghijklmnopq";
    assert name[1] == '.';
    assert forall j | 1 < j < |name| :: name[j] != '.';
    assert LastIndexOf(name, '.') == 1;
    assert |Extension(name)| == 18;
    assert |Slice(name, 0, -6)| == 13;
  }

  /** Whenever the extension does not fit, the as-written result is longer than `maxLength`. */
  lemma TruncateOverflows(name: string, maxLength: int)
    requires |name| > maxLength >= 0 && |Extension(name)| + 3 > maxLength
    ensures |TruncateFileName(name, maxLength)| > maxLength
  {
  }

  /**
   * The evidently intended truncation: identical to TruncateFileName whenever the extension fits,
   * and otherwise a prefix of the name followed by "...", so that the result never exceeds
   * `maxLength` (for limits of at least 3, the room "..." needs).
   */
  function TruncateFileNameBounded(name: string, maxLength: int): (r: string)
    ensures maxLength >= 3 ==> |r| <= maxLength
    ensures |name| <= maxLength ==> r == name
    ensures |Extension(name)| + 3 <= maxLength ==> r == TruncateFileName(name, maxLength)
    ensures |name| > maxLength >= 3 ==> |r| == maxLength
    ensures |name| > maxLength >= 3 && |Extension(name)| + 3 > maxLength ==> r == name[..maxLength - 3] + "..."
  {
    var ext := Extension(name);
    if |name| <= maxLength then name
    else if |ext| + 3 <= maxLength then
      TruncateFits(name, maxLength);
      TruncateFileName(name, maxLength)
    else if maxLength >= 3 then name[..maxLength - 3] + "..."
    else "..."
  }
}
