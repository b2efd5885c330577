/**
 * The output transformers of index.js: status normalization (`formatStatus`),
 * host-port extraction (`formatPort`), and the two transforms that turn the
 * text `docker ps --format ...` prints into kernel records (the `getKernel`
 * and `getKernels` intents).
 */
module Transformers {
  import opened Wrappers
  import opened Text

  datatype KernelStatus = Pending | Running | Exited

  /**
   * A kernel as the renderer sees it. `image` and `port` are absent when the
   * source leaves them `undefined` / `null`; the port is the digit string the
   * regular expression captured, not a number.
   */
  datatype KernelRecord = KernelRecord(id: string, status: KernelStatus, image: Option<string>, port: Option<string>)

  // ---------------------------------------------------------------------------
  // formatStatus

  /** A falsy status is `undefined` or the empty string. */
  predicate Falsy(s: Option<string>) {
    s.None? || s.value == []
  }

  /** `formatStatus`: "Up" anywhere means running; otherwise "Exit" means exited. */
  function FormatStatus(status: Option<string>): (r: KernelStatus)
    ensures Falsy(status) ==> r == Pending
    ensures r == Running <==> status.Some? && Occurs(status.value, "Up")
    ensures r == Exited <==> status.Some? && !Occurs(status.value, "Up") && Occurs(status.value, "Exit")
  {
    if Falsy(status) then
      assert !OccursAt([], "Up", 0) && !OccursAt([], "Exit", 0);
      Pending
    else if Includes(status.value, "Up") then Running
    else if Includes(status.value, "Exit") then Exited
    else Pending
  }

  // ---------------------------------------------------------------------------
  // formatPort: the regular expression /:(\d+)->/ and an explicit scan for it

  /**
   * The regular expression `/:(\d+)->/` matches `s` at index `i` with its group
   * ending at `j`: a ':' at `i`, digits on `i+1..j` (at least one), then "->".
   */
  ghost predicate MatchesAt(s: string, i: int, j: int) {
    0 <= i && i + 1 < j && j + 2 <= |s|
    && s[i] == ':' && AllDigits(s[i + 1..j]) && s[j] == '-' && s[j + 1] == '>'
  }

  ghost predicate HasMatchAt(s: string, i: int) {
    exists j :: MatchesAt(s, i, j)
  }

  /** Where the match begins fixes where its digits end: the group is unique. */
  lemma MatchEndUnique(s: string, i: int, j1: int, j2: int)
    requires MatchesAt(s, i, j1) && MatchesAt(s, i, j2)
    ensures j1 == j2
  {
  }

  /** The end of the longest run of digits in `s` starting at `k`. */
  function DigitsEnd(s: string, k: nat): (j: nat)
    requires k <= |s|
    ensures k <= j <= |s| && AllDigits(s[k..j])
    ensures j == |s| || !IsDigit(s[j])
    decreases |s| - k
  {
    if k < |s| && IsDigit(s[k]) then
      var j := DigitsEnd(s, k + 1);
      assert s[k..j] == [s[k]] + s[k + 1..j];
      j
    else k
  }

  /** The end of the group if the pattern matches at `i`. */
  function MatchEnd(s: string, i: nat): (r: Option<nat>)
    requires i < |s|
    ensures r.Some? ==> MatchesAt(s, i, r.value)
    ensures r.None? ==> !HasMatchAt(s, i)
  {
    if s[i] != ':' then None
    else
      var j := DigitsEnd(s, i + 1);
      if i + 1 < j && j + 2 <= |s| && s[j] == '-' && s[j + 1] == '>' then Some(j)
      else
        assert forall j' :: MatchesAt(s, i, j') ==> j' == j by {
          forall j' | MatchesAt(s, i, j') ensures j' == j {
            MatchEndUnique(s, i, j', j);
          }
        }
        None
  }

  /** The leftmost match at or after `from`, as (start, end of group). */
  function ScanPort(s: string, from: nat): (r: Option<(nat, nat)>)
    requires from <= |s|
    ensures r.Some? ==> from <= r.value.0 && MatchesAt(s, r.value.0, r.value.1)
    ensures r.Some? ==> forall i :: from <= i < r.value.0 ==> !HasMatchAt(s, i)
    ensures r.None? ==> forall i :: from <= i ==> !HasMatchAt(s, i)
    decreases |s| - from
  {
    if from == |s| then None
    else
      match MatchEnd(s, from)
      case Some(j) => Some((from, j))
      case None => ScanPort(s, from + 1)
  }

  /**
   * `formatPort`: the digits of the leftmost `:<digits>->` in a non-empty
   * ports column, or `null`.
   */
  function FormatPort(port: Option<string>): (r: Option<string>)
    ensures Falsy(port) ==> r.None?
    ensures r.Some? ==> r.value != [] && AllDigits(r.value)
    ensures !Falsy(port) ==> (r.None? <==> forall i :: !HasMatchAt(port.value, i))
    ensures r.Some? ==> exists i :: LeftmostMatch(port.value, i, r.value)
  {
    if Falsy(port) then None
    else
      match ScanPort(port.value, 0)
      case None => None
      case Some((i, j)) =>
        var s := port.value;
        assert forall i' :: i' < 0 ==> !HasMatchAt(s, i');
        assert LeftmostMatch(s, i, s[i + 1..j]) && HasMatchAt(s, i);
        Some(s[i + 1..j])
  }

  /**
   * `digits` is captured by the leftmost match, which starts at `i`: the
   * digits stand between a ':' and a "->", and no match starts further left.
   */
  ghost predicate LeftmostMatch(s: string, i: int, digits: string) {
    MatchesAt(s, i, i + 1 + |digits|) && s[i + 1..i + 1 + |digits|] == digits
    && forall i' :: 0 <= i' < i ==> !HasMatchAt(s, i')
  }

  /** `formatPort` is exactly the regular expression: the leftmost match's group. */
  lemma FormatPortIsLeftmostMatch(s: string, i: int, j: int)
    requires MatchesAt(s, i, j)
    requires forall i' :: 0 <= i' < i ==> !HasMatchAt(s, i')
    ensures FormatPort(Some(s)) == Some(s[i + 1..j])
  {
    var r := FormatPort(Some(s));
    assert HasMatchAt(s, i);
    var i0 :| LeftmostMatch(s, i0, r.value);
    assert HasMatchAt(s, i0);
    assert i0 == i;
    MatchEndUnique(s, i, j, i + 1 + |r.value|);
  }

  /**
   * A host port published in front of a prefix without ':' (such as the host
   * address "0.0.0.0") is the one `formatPort` reads back.
   */
  lemma FormatPortReadsPublishedPort(host: string, p: string, rest: string)
    requires ':' !in host
    requires p != [] && AllDigits(p)
    ensures FormatPort(Some(host + ":" + p + "->" + rest)) == Some(p)
  {
    var s := host + ":" + p + "->" + rest;
    var i := |host|;
    assert s[i + 1..i + 1 + |p|] == p;
    assert MatchesAt(s, i, i + 1 + |p|);
    forall i' | 0 <= i' < i ensures !HasMatchAt(s, i') {
      assert s[i'] == host[i'];
    }
    FormatPortIsLeftmostMatch(s, i, i + 1 + |p|);
  }

  // ---------------------------------------------------------------------------
  // the getKernel and getKernels transforms

  /** `const [a, b, ...] = parts`: an index past the end gives `undefined`. */
  function Field(parts: seq<string>, k: nat): (r: Option<string>)
    ensures r.Some? <==> k < |parts|
    ensures r.Some? ==> r.value == parts[k]
  {
    if k < |parts| then Some(parts[k]) else None
  }

  /**
   * The `getKernel` transform: `id|status|ports` from the raw output. The image
   * is the one the request asked for, not a column of the output.
   */
  function KernelOf(c: string, image: string): (r: KernelRecord)
    ensures r.image == Some(image)
    ensures '|' !in r.id && (r.id == c || (|r.id| < |c| && c[..|r.id| + 1] == r.id + "|"))
    ensures multiset(c)['|'] == 0 ==> r.status == Pending
    ensures multiset(c)['|'] < 2 ==> r.port.None?
  {
    var parts := Split(c, '|');
    SplitHead(c, '|');
    SplitCount(c, '|');
    KernelRecord(parts[0], FormatStatus(Field(parts, 1)), Some(image), FormatPort(Field(parts, 2)))
  }

  /** Output with all three columns yields them, with the request's image. */
  lemma KernelOfColumns(id: string, status: string, ports: string, image: string)
    requires '|' !in id && '|' !in status && '|' !in ports
    ensures KernelOf(id + "|" + (status + "|" + ports), image)
      == KernelRecord(id, FormatStatus(Some(status)), Some(image), FormatPort(Some(ports)))
  {
    SplitThree(id, status, ports, '|');
  }

  /** One line of the `getKernels` listing: `id|status|image|ports`. */
  function ListedKernel(line: string): (r: KernelRecord)
    ensures '|' !in r.id && (r.id == line || (|r.id| < |line| && line[..|r.id| + 1] == r.id + "|"))
    ensures multiset(line)['|'] == 0 ==> r.status == Pending
    ensures r.image.Some? <==> multiset(line)['|'] >= 2
    ensures |Split(line, '|')| > 2 ==> r.image == Some(Split(line, '|')[2])
    ensures multiset(line)['|'] < 3 ==> r.port.None?
  {
    var parts := Split(line, '|');
    SplitHead(line, '|');
    SplitCount(line, '|');
    KernelRecord(parts[0], FormatStatus(Field(parts, 1)), Field(parts, 2), FormatPort(Field(parts, 3)))
  }

  /** A well-formed listing line yields its four columns, the image verbatim. */
  lemma ListedKernelOfColumns(id: string, status: string, image: string, ports: string)
    requires '|' !in id && '|' !in status && '|' !in image && '|' !in ports
    ensures ListedKernel(id + "|" + (status + "|" + (image + "|" + ports)))
      == KernelRecord(id, FormatStatus(Some(status)), Some(image), FormatPort(Some(ports)))
  {
    SplitFour(id, status, image, ports, '|');
  }

  /** The lines the listing keeps: every non-empty one, in order. */
  function NonEmpty(lines: seq<string>): (r: seq<string>)
    ensures |r| <= |lines|
    ensures forall k :: 0 <= k < |r| ==> r[k] != [] && r[k] in lines
    decreases |lines|
  {
    if lines == [] then []
    else if lines[|lines| - 1] == [] then NonEmpty(lines[..|lines| - 1])
    else NonEmpty(lines[..|lines| - 1]) + [lines[|lines| - 1]]
  }

  lemma {:induction false} NonEmptyAppend(a: seq<string>, b: seq<string>)
    ensures NonEmpty(a + b) == NonEmpty(a) + NonEmpty(b)
    decreases |b|
  {
    if b == [] {
      assert a + b == a;
    } else {
      var b' := b[..|b| - 1];
      assert (a + b)[..|a + b| - 1] == a + b';
      NonEmptyAppend(a, b');
    }
  }

  function ListedKernels(lines: seq<string>): (r: seq<KernelRecord>)
    ensures |r| == |lines|
    ensures forall k :: 0 <= k < |r| ==> r[k] == ListedKernel(lines[k])
  {
    seq(|lines|, k requires 0 <= k < |lines| => ListedKernel(lines[k]))
  }

  /** The `getKernels` transform: one record per non-empty line of the listing. */
  function KernelsOf(c: string): seq<KernelRecord> {
    ListedKernels(NonEmpty(Split(c, '\n')))
  }

  /** A line on its own yields its record, or nothing when it is empty. */
  lemma KernelsOfLine(line: string)
    requires '\n' !in line
    ensures KernelsOf(line) == if line == [] then [] else [ListedKernel(line)]
  {
    SplitWithoutSeparator(line, '\n');
    assert NonEmpty([line]) == NonEmpty([][..0]) + (if line == [] then [] else [line]);
  }

  /** The records of two blocks of lines are the records of each, in order. */
  lemma KernelsOfLines(a: string, b: string)
    ensures KernelsOf(a + "\n" + b) == KernelsOf(a) + KernelsOf(b)
  {
    SplitAppend(a, b, '\n');
    NonEmptyAppend(Split(a, '\n'), Split(b, '\n'));
  }

  /** The blank line after the CLI's final newline contributes no record. */
  lemma KernelsOfTrailingNewline(c: string)
    ensures KernelsOf(c + "\n") == KernelsOf(c)
  {
    KernelsOfLines(c, "");
    KernelsOfLine("");
    assert c + "\n" + "" == c + "\n";
  }

  lemma ListedKernelsAppend(a: seq<string>, b: seq<string>)
    ensures ListedKernels(a + b) == ListedKernels(a) + ListedKernels(b)
  {
  }

  /** One step of the `reduce`: the next line adds its record, or nothing when empty. */
  lemma CollectStep(lines: seq<string>, i: nat)
    requires i < |lines|
    ensures ListedKernels(NonEmpty(lines[..i + 1])) ==
      ListedKernels(NonEmpty(lines[..i])) + (if lines[i] == [] then [] else [ListedKernel(lines[i])])
  {
    var n := lines[i];
    assert lines[..i + 1] == lines[..i] + [n];
    NonEmptyAppend(lines[..i], [n]);
    assert NonEmpty([n]) == NonEmpty([n][..0]) + (if n == [] then [] else [n]);
    ListedKernelsAppend(NonEmpty(lines[..i]), NonEmpty([n]));
  }

  /**
   * The `reduce` of the `getKernels` transform: walk the lines, skip the empty
   * ones and push a record for each other one onto the accumulator.
   */
  method CollectKernels(c: string) returns (kernels: seq<KernelRecord>)
    ensures kernels == KernelsOf(c)
  {
    var lines := Split(c, '\n');
    kernels := [];
    var i := 0;
    while i < |lines|
      invariant 0 <= i <= |lines|
      invariant kernels == ListedKernels(NonEmpty(lines[..i]))
    {
      var n := lines[i];
      CollectStep(lines, i);
      if n != [] {
        kernels := kernels + [ListedKernel(n)];
      }
      i := i + 1;
    }
    assert lines[..i] == lines;
  }
}
