/**
 * Parsing of the replies the LC29H sends back: the $PAIR001
 * acknowledgement, query replies split into integer fields, and the
 * cropping helper. Each parser works in place on the zero-filled `char`
 * buffer the reply was read into and writes NUL bytes into it, as `strtok`
 * and the driver's own splitter do.
 */
module Parse {
  import opened CLib
  import opened Protocol
  import opened Sentence

  datatype Option<T> = None | Some(value: T)

  /** The C string that starts at offset `p` of a buffer. */
  function CStrFrom(b: seq<char>, p: nat): (t: seq<char>)
    requires p <= |b|
    ensures NoNul(t) && p + |t| <= |b|
  {
    CStr(b[p..])
  }

  /** Reading `j` bytes further into a buffer's string drops its first `j` bytes. */
  lemma CStrFromSuffix(b: seq<char>, p: nat, j: nat)
    requires p <= |b| && j <= |CStrFrom(b, p)|
    ensures CStrFrom(b, p + j) == CStrFrom(b, p)[j..]
  {
    var t := CStrFrom(b, p);
    var n := StrLen(b[p..]);
    var u := b[p + j..];
    assert u == b[p..][j..];
    assert forall i :: 0 <= i < n - j ==> u[i] == t[j + i];
    if n < |b[p..]| {
      assert u[n - j] == NUL;
    }
    assert StrLen(u) == n - j;
  }

  /** The string of a zero-padded buffer, read from offset `p`. */
  lemma CStrFromOfCBuffer(b: seq<char>, p: nat)
    requires IsCBuffer(b) && p <= |b|
    ensures CStrFrom(b, p) == CStrAt(CStr(b), p)
  {
    var s := CStr(b);
    var u := b[p..];
    if p <= |s| {
      assert forall j :: 0 <= j < |s| - p ==> u[j] == s[p + j];
      assert u[|s| - p] == NUL;
      assert StrLen(u) == |s| - p;
    } else if p < |b| {
      assert u[0] == NUL;
    }
  }

  /**
   * Cutting the string read from `p` at its `c`-th byte leaves the bytes
   * before the cut at `p` and the bytes after it at `p + c + 1`.
   */
  lemma CutAt(b: seq<char>, p: nat, c: nat)
    requires p <= |b| && c < |CStrFrom(b, p)|
    ensures CStrFrom(b[p + c := NUL], p) == CStrFrom(b, p)[..c]
    ensures CStrFrom(b[p + c := NUL], p + c + 1) == CStrFrom(b, p)[c + 1..]
  {
    CStrFromAfterCut(b, p, p + c);
    CStrFromSuffix(b, p, c + 1);
    assert b[p + c := NUL][p + c + 1..] == b[p + c + 1..];
  }

  /** Writing a NUL at index `k` ends the string read from offset `p <= k` there. */
  lemma CStrFromAfterCut(b: seq<char>, p: nat, k: nat)
    requires p <= k < |b| && k - p <= |CStrFrom(b, p)|
    ensures CStrFrom(b[k := NUL], p) == CStrFrom(b, p)[..k - p]
  {
    var t := CStrFrom(b, p);
    var u := b[k := NUL][p..];
    assert forall j :: 0 <= j < k - p ==> u[j] == t[j];
    assert u[k - p] == NUL;
    assert StrLen(u) == k - p;
  }

  // ---------------------------------------------------------------
  // Cropping
  // ---------------------------------------------------------------

  /**
   * `Lc29_driver_crop_sentence`: skips the eight identifier bytes and ends
   * the string at the first `*` after them; with no `*` the result is
   * empty. The returned offset is always 8.
   */
  method CropSentence(buf: array<char>) returns (start: nat)
    requires IsCBuffer(buf[..]) && IdentifierCompareLength < buf.Length
    modifies buf
    ensures start == IdentifierCompareLength
    ensures var t := CStrAt(CStr(old(buf[..])), IdentifierCompareLength);
            var a := IndexOf(t, '*');
            buf[..] == old(buf[..])[(if a < |t| then IdentifierCompareLength + a else IdentifierCompareLength) := NUL] &&
            CStrFrom(buf[..], start) == (if a < |t| then t[..a] else [])
  {
    ghost var b := buf[..];
    start := IdentifierCompareLength;
    CStrFromOfCBuffer(b, start);
    var t := CStrFrom(buf[..], start);
    var a := IndexOf(t, '*');
    if a == |t| {
      buf[start] := NUL;
      assert buf[..] == b[start := NUL];
      assert buf[start..][0] == NUL;
    } else {
      buf[start + a] := NUL;
      assert buf[..] == b[start + a := NUL];
      CStrFromAfterCut(b, start, start + a);
    }
  }

  // ---------------------------------------------------------------
  // Splitting a reply into integer fields
  // ---------------------------------------------------------------

  /**
   * The field texts `lc29_driver_parse_string_by_comma` converts, read from
   * the text after the skipped prefix: each comma-terminated field, at most
   * `maxValues` of them, then one more for the text before the next `*` if
   * there is one.
   */
  function SplitTexts(t: string, maxValues: int): (fields: seq<string>)
    decreases |t|
  {
    var c := IndexOf(t, ',');
    if maxValues > 0 && c < |t| then [t[..c]] + SplitTexts(t[c + 1..], maxValues - 1)
    else
      var a := IndexOf(t, '*');
      if a < |t| then [t[..a]] else []
  }

  /** `atoi` of each text. */
  function AtoiEach(ts: seq<string>): (vs: seq<int32>)
    ensures |vs| == |ts|
  {
    if ts == [] then [] else AtoiEach(ts[..|ts| - 1]) + [Atoi(ts[|ts| - 1])]
  }

  lemma AtoiEachSnoc(ts: seq<string>, t: string)
    ensures AtoiEach(ts + [t]) == AtoiEach(ts) + [Atoi(t)]
  {
    assert (ts + [t])[..|ts|] == ts;
  }

  /** When the last field text is `last`, the last value is `atoi` of it. */
  lemma SplitFieldsSnoc(t: string, maxValues: int, done: seq<string>, last: string)
    requires SplitTexts(t, maxValues) == done + [last]
    ensures SplitFields(t, maxValues) == AtoiEach(done) + [Atoi(last)]
  {
    AtoiEachSnoc(done, last);
  }

  /** Each value is `atoi` of the text in the same place. */
  lemma {:induction false} AtoiEachAt(ts: seq<string>, k: nat)
    requires k < |ts|
    ensures AtoiEach(ts)[k] == Atoi(ts[k])
    decreases |ts|
  {
    if k < |ts| - 1 {
      AtoiEachAt(ts[..|ts| - 1], k);
    }
  }

  /** The values the splitter stores. */
  function SplitFields(t: string, maxValues: int): (vals: seq<int32>)
    ensures |vals| == |SplitTexts(t, maxValues)|
  {
    AtoiEach(SplitTexts(t, maxValues))
  }

  /** The splitter takes at most one more field than `maxValues`. */
  lemma {:induction false} SplitFieldsCount(t: string, maxValues: int)
    ensures |SplitTexts(t, maxValues)| <= (if maxValues < 0 then 0 else maxValues) + 1
    decreases |t|
  {
    var c := IndexOf(t, ',');
    if maxValues > 0 && c < |t| {
      SplitFieldsCount(t[c + 1..], maxValues - 1);
    }
  }

  /** Texts each followed by a comma, one after another. */
  function CommaTerminated(fs: seq<string>): (t: string)
    ensures |t| >= |fs|
  {
    if fs == [] then "" else fs[0] + "," + CommaTerminated(fs[1..])
  }

  /** The first comma-terminated text, then the rest followed by `tail`. */
  lemma CommaTerminatedAppend(fs: seq<string>, tail: string)
    requires fs != []
    ensures CommaTerminated(fs) + tail == fs[0] + "," + (CommaTerminated(fs[1..]) + tail)
  {
    assert CommaTerminated(fs) == fs[0] + "," + CommaTerminated(fs[1..]);
  }

  /** The first of the comma-terminated texts is taken as a field before the others. */
  lemma SplitTakesFirst(fs: seq<string>, tail: string, others: seq<string>)
    requires fs != [] && ',' !in fs[0]
    requires SplitTexts(CommaTerminated(fs[1..]) + tail, |fs| - 1) == others
    ensures SplitTexts(CommaTerminated(fs) + tail, |fs|) == [fs[0]] + others
  {
    CommaTerminatedAppend(fs, tail);
    SplitTakesField(fs[0], CommaTerminated(fs[1..]) + tail, |fs|);
  }

  /**
   * The overrun: when `maxValues` comma-free fields are each followed by a
   * comma and then a field ends at a `*`, the splitter stores all
   * `maxValues + 1` of them.
   */
  lemma {:induction false} SplitFieldsOverrun(fs: seq<string>, last: string, rest: string)
    requires forall k :: 0 <= k < |fs| ==> ',' !in fs[k]
    requires '*' !in last
    ensures SplitTexts(CommaTerminated(fs) + (last + "*" + rest), |fs|) == fs + [last]
    decreases |fs|
  {
    var tail := last + "*" + rest;
    if fs == [] {
      assert CommaTerminated(fs) + tail == tail;
      SplitEndsAtStar(last, rest);
    } else {
      SplitFieldsOverrun(fs[1..], last, rest);
      SplitTakesFirst(fs, tail, fs[1..] + [last]);
      assert fs + [last] == [fs[0]] + (fs[1..] + [last]);
    }
  }

  /** With no comma left to take, the field before the first `*` is the last one. */
  lemma SplitEndsAtStar(last: string, rest: string)
    requires '*' !in last
    ensures SplitTexts(last + "*" + rest, 0) == [last]
  {
    var t := last + "*" + rest;
    assert IndexOf(t, '*') == |last| by {
      assert t[|last|] == '*';
      assert forall j :: 0 <= j < |last| ==> t[j] == last[j];
    }
    assert t[..|last|] == last;
  }

  /** While values are still wanted, a comma-free field followed by a comma is taken. */
  lemma SplitTakesField(f: string, u: string, m: int)
    requires ',' !in f && m > 0
    ensures SplitTexts(f + "," + u, m) == [f] + SplitTexts(u, m - 1)
  {
    var t := f + "," + u;
    assert IndexOf(t, ',') == |f| by {
      assert t[|f|] == ',';
      assert forall j :: 0 <= j < |f| ==> t[j] == f[j];
    }
    assert t[..|f|] == f;
    assert t[|f| + 1..] == u;
  }

  /** Two fields asked for, a comma-free text "a,b*rest" splits into `a` and `b`. */
  lemma SplitTwoFields(a: string, b: string, rest: string)
    requires ',' !in a && ',' !in b && '*' !in b && ',' !in rest
    ensures SplitTexts(a + "," + (b + "*" + rest), 2) == [a, b]
  {
    var u := b + "*" + rest;
    SplitTakesField(a, u, 2);
    assert ',' !in u;
    assert IndexOf(u, ',') == |u|;
    SplitTakesStar(u, 1);
    SplitTakesStar(u, 0);
    SplitEndsAtStar(b, rest);
  }

  /** `atoi` of each of two texts. */
  lemma AtoiEachPair(a: string, b: string)
    ensures AtoiEach([a, b]) == [Atoi(a), Atoi(b)]
  {
    assert [a, b][..1] == [a];
    assert [a][..0] == [];
  }

  /** The smallest overrun: asked for one value, the splitter stores two from "1,2*". */
  lemma SplitFieldsOverrunWitness()
    ensures |SplitFields("1,2*", 1)| == 2
  {
    assert "1,2*" == CommaTerminated(["1"]) + ("2" + "*" + "");
    SplitFieldsOverrun(["1"], "2", "");
  }

  /** The text after the first comma still holds a `*`: there are two fields. */
  predicate TwoFieldsBeforeStar(t: string) {
    var c := IndexOf(t, ',');
    c < |t| && IndexOf(t[c + 1..], '*') < |t| - (c + 1)
  }

  /** A reply whose fields hold a comma and then a `*` never yields the one value a single-value query wants. */
  lemma MultiFieldReplyRejected(s: string, commandId: string, length: nat)
    requires TwoFieldsBeforeStar(CStrAt(s, |commandId| + 1))
    ensures QueryFields(s, commandId, length, 1).None?
  {
    var t := CStrAt(s, |commandId| + 1);
    var c := IndexOf(t, ',');
    SplitTakesComma(t, 1);
    SplitTakesStar(t[c + 1..], 0);
  }

  /** `b'` is `b` with some commas or stars, and nothing else, overwritten by NUL. */
  ghost predicate OnlyDelimitersCut(b: seq<char>, b': seq<char>) {
    |b'| == |b| &&
    forall k :: 0 <= k < |b| ==> b'[k] == b[k] || (b'[k] == NUL && (b[k] == ',' || b[k] == '*'))
  }

  /**
   * `lc29_driver_parse_string_by_comma`: skips `cmdIdLen` bytes, then
   * cuts each comma to a NUL and stores `atoi` of the field before it,
   * while fewer than `maxValues` are stored; finally cuts the next `*` and
   * stores the field before it. It returns how many values it stored, which
   * is one more than `maxValues` when every comma was taken and a `*` follows,
   * so `values[maxValues]` is written.
   */
  method ParseStringByComma(cmdIdLen: nat, buf: array<char>, values: array<int32>, maxValues: int)
    returns (count: nat)
    requires cmdIdLen <= buf.Length
    requires (if maxValues < 0 then 0 else maxValues) < values.Length
    modifies buf, values
    ensures OnlyDelimitersCut(old(buf[..]), buf[..])
    ensures count <= values.Length
    ensures forall k :: count <= k < values.Length ==> values[k] == old(values[k])
    ensures values[..count] == SplitFields(CStrFrom(old(buf[..]), cmdIdLen), maxValues)
  {
    ghost var b0 := buf[..];
    var p, i, done := CutFields(cmdIdLen, buf, values, maxValues);
    count := CutLastField(cmdIdLen, buf, values, maxValues, p, i, b0, done);
  }

  /**
   * The end of `lc29_driver_parse_string_by_comma`: after the loop stopped
   * at offset `p` with `i` values stored, cuts the next `*`, if there is
   * one, and stores `atoi` of the field before it.
   */
  method CutLastField(start: nat, buf: array<char>, values: array<int32>, maxValues: int, p: nat, i: nat,
                      ghost b0: seq<char>, ghost done: seq<string>)
    returns (count: nat)
    requires SplitInv(b0, start, maxValues, buf[..], done, p, i)
    requires i >= maxValues || IndexOf(CStrFrom(buf[..], p), ',') == |CStrFrom(buf[..], p)|
    requires i < values.Length && values[..i] == AtoiEach(done)
    modifies buf, values
    ensures OnlyDelimitersCut(b0, buf[..])
    ensures count <= values.Length
    ensures forall k :: count <= k < values.Length ==> values[k] == old(values[k])
    ensures values[..count] == SplitFields(CStrFrom(b0, start), maxValues)
  {
    var t := CStrFrom(buf[..], p);
    var a := IndexOf(t, '*');
    ghost var b := buf[..];
    ghost var v := values[..i];
    if a < |t| {
      var star := p + a;
      count := i + 1;
      SplitStar(b0, start, maxValues, b, done, p, i, t, a, star);
      SplitFieldsSnoc(CStrFrom(b0, start), maxValues, done, t[..a]);
      buf[star] := NUL;
      assert buf[..] == b[star := NUL];
      assert OnlyDelimitersCut(b0, buf[..]);
      var field := CStrFrom(buf[..], p);
      assert field == t[..a];
      var x := Atoi(field);
      values[i] := x;
      assert values[..count] == v + [x];
    } else {
      SplitNoStar(b0, start, maxValues, b, done, p, i);
      count := i;
    }
  }

  /**
   * The loop of `lc29_driver_parse_string_by_comma`: from offset `start`,
   * while fewer than `maxValues` values are stored and a comma follows,
   * cuts the comma and stores `atoi` of the field before it. It returns
   * the offset the next field starts at, the number of values stored, and
   * (as a ghost) their texts.
   */
  method CutFields(start: nat, buf: array<char>, values: array<int32>, maxValues: int)
    returns (p: nat, i: nat, ghost done: seq<string>)
    requires start <= buf.Length
    requires (if maxValues < 0 then 0 else maxValues) < values.Length
    modifies buf, values
    ensures SplitInv(old(buf[..]), start, maxValues, buf[..], done, p, i)
    ensures i >= maxValues || IndexOf(CStrFrom(buf[..], p), ',') == |CStrFrom(buf[..], p)|
    ensures i < values.Length
    ensures values[..i] == AtoiEach(done)
    ensures forall k :: i <= k < values.Length ==> values[k] == old(values[k])
  {
    ghost var b0 := buf[..];
    p := start;
    i := 0;
    done := [];
    while i < maxValues
      invariant SplitInv(b0, start, maxValues, buf[..], done, p, i)
      invariant values[..i] == AtoiEach(done)
      invariant forall k :: i <= k < values.Length ==> values[k] == old(values[k])
      decreases buf.Length - p
    {
      var t := CStrFrom(buf[..], p);
      var c := IndexOf(t, ',');
      if c == |t| {
        break;
      }
      var q, j := p + c + 1, i + 1;
      ghost var b := buf[..];
      ghost var v := values[..i];
      ghost var d := done + [t[..c]];
      SplitStep(b0, start, maxValues, b, done, p, i, c, q, j);
      buf[p + c] := NUL;
      var x := Atoi(t[..c]);
      values[i] := x;
      assert buf[..] == b[p + c := NUL];
      assert values[..j] == v + [x];
      AtoiEachSnoc(done, t[..c]);
      done, p, i := d, q, j;
    }
  }

  /** The loop state of the splitter after taking `i` fields and reaching offset `p` of buffer `b`. */
  ghost predicate SplitInv(b0: seq<char>, start: nat, maxValues: int, b: seq<char>, done: seq<string>, p: nat, i: nat) {
    && CutSoFar(b0, b, start, p)
    && (i <= maxValues || i == 0)
    && |done| == i
    && SplitTexts(CStrFrom(b0, start), maxValues) == done + SplitTexts(CStrFrom(b, p), maxValues - i)
  }

  /** One pass of the loop: the comma at `c` is cut and the field before it taken. */
  lemma SplitStep(b0: seq<char>, start: nat, maxValues: int, b: seq<char>, done: seq<string>, p: nat, i: nat, c: nat,
                  q: nat, j: nat)
    requires SplitInv(b0, start, maxValues, b, done, p, i) && i < maxValues
    requires c == IndexOf(CStrFrom(b, p), ',') && c < |CStrFrom(b, p)|
    requires q == p + c + 1 && j == i + 1
    ensures p + c < |b| && q <= |b|
    ensures SplitInv(b0, start, maxValues, b[p + c := NUL], done + [CStrFrom(b, p)[..c]], q, j)
  {
    var t := CStrFrom(b, p);
    CStrFromBound(b, p, c);
    var b' := b[p + c := NUL];
    CutStep(b0, b, start, p, c, b', q);
    TextsStep(SplitTexts(CStrFrom(b0, start), maxValues), done, t, maxValues - i, CStrFrom(b', q), maxValues - j);
  }

  lemma TextsStep(whole: seq<string>, done: seq<string>, t: string, m: int, rest: string, m': int)
    requires m > 0 && IndexOf(t, ',') < |t| && whole == done + SplitTexts(t, m)
    requires rest == t[IndexOf(t, ',') + 1..] && m' == m - 1
    ensures whole == (done + [t[..IndexOf(t, ',')]]) + SplitTexts(rest, m')
  {
    SplitTakesComma(t, m);
  }

  /** After the loop, with a `*` at `star`: it is cut and the field before it is the last one. */
  lemma SplitStar(b0: seq<char>, start: nat, maxValues: int, b: seq<char>, done: seq<string>, p: nat, i: nat,
                  t: string, a: nat, star: nat)
    requires SplitInv(b0, start, maxValues, b, done, p, i)
    requires i >= maxValues || IndexOf(CStrFrom(b, p), ',') == |CStrFrom(b, p)|
    requires t == CStrFrom(b, p) && a == IndexOf(t, '*') && a < |t| && star == p + a
    ensures star < |b|
    ensures CStrFrom(b[star := NUL], p) == t[..a]
    ensures OnlyDelimitersCut(b0, b[star := NUL])
    ensures SplitTexts(CStrFrom(b0, start), maxValues) == done + [t[..a]]
  {
    SplitTakesStar(t, maxValues - i);
    CStrFromBound(b, p, a);
    CutStep(b0, b, start, p, a, b[star := NUL], star + 1);
  }

  /** After the loop, with no `*`: nothing more is taken. */
  lemma SplitNoStar(b0: seq<char>, start: nat, maxValues: int, b: seq<char>, done: seq<string>, p: nat, i: nat)
    requires SplitInv(b0, start, maxValues, b, done, p, i)
    requires i >= maxValues || IndexOf(CStrFrom(b, p), ',') == |CStrFrom(b, p)|
    requires IndexOf(CStrFrom(b, p), '*') == |CStrFrom(b, p)|
    ensures SplitTexts(CStrFrom(b0, start), maxValues) == done
  {
    SplitTakesStar(CStrFrom(b, p), maxValues - i);
    assert done + [] == done;
  }

  lemma CStrFromBound(b: seq<char>, p: nat, c: nat)
    requires p <= |b| && c < |CStrFrom(b, p)|
    ensures p + c < |b|
  {
  }

  /** The buffer state while splitting: cuts only behind `p`, untouched from `p` on. */
  ghost predicate CutSoFar(b0: seq<char>, b: seq<char>, start: nat, p: nat) {
    && start <= p <= |b| == |b0|
    && OnlyDelimitersCut(b0, b)
    && b[p..] == b0[p..]
  }

  /** Cutting the `c`-th byte of the string read from `p`, a comma or a star, keeps the splitting state. */
  lemma CutStep(b0: seq<char>, b: seq<char>, start: nat, p: nat, c: nat, b': seq<char>, q: nat)
    requires CutSoFar(b0, b, start, p)
    requires c < |CStrFrom(b, p)| && (CStrFrom(b, p)[c] == ',' || CStrFrom(b, p)[c] == '*')
    requires p + c < |b| && b' == b[p + c := NUL] && q == p + c + 1
    ensures CStrFrom(b', p) == CStrFrom(b, p)[..c]
    ensures CStrFrom(b', q) == CStrFrom(b, p)[c + 1..]
    ensures CutSoFar(b0, b', start, q)
  {
    CutAt(b, p, c);
    assert b[p + c] == CStrFrom(b, p)[c] == b0[p + c] by {
      assert b[p..][c] == b0[p..][c];
    }
    assert b'[p + c + 1..] == b[p..][c + 1..];
    assert b[p..][c + 1..] == b0[p..][c + 1..];
  }

  /** One step of the loop: the field before the next comma is taken. */
  lemma SplitTakesComma(t: string, m: int)
    requires m > 0 && IndexOf(t, ',') < |t|
    ensures SplitTexts(t, m) == [t[..IndexOf(t, ',')]] + SplitTexts(t[IndexOf(t, ',') + 1..], m - 1)
  {
  }

  /** The last step takes the field before the next `*`, if there is one. */
  lemma SplitTakesStar(t: string, m: int)
    requires m <= 0 || IndexOf(t, ',') == |t|
    ensures SplitTexts(t, m) == (if IndexOf(t, '*') < |t| then [t[..IndexOf(t, '*')]] else [])
  {
  }

  // ---------------------------------------------------------------
  // strtok
  // ---------------------------------------------------------------

  /** Index of the first non-comma byte at or after `i`: `strtok` skips leading delimiters. */
  function SkipCommas(t: string, i: nat): (j: nat)
    requires i <= |t|
    ensures i <= j <= |t|
    ensures j < |t| ==> t[j] != ','
    ensures forall k :: i <= k < j ==> t[k] == ','
    decreases |t| - i
  {
    if i < |t| && t[i] == ',' then SkipCommas(t, i + 1) else i
  }

  /** Index of the first comma at or after `j`, or `|t|`: where `strtok` ends the token. */
  function TokenEnd(t: string, j: nat): (k: nat)
    requires j <= |t|
    ensures j <= k <= |t|
    ensures k < |t| ==> t[k] == ','
    ensures forall m :: j <= m < k ==> t[m] != ','
  {
    j + IndexOf(t[j..], ',')
  }

  /** The first token `strtok(t, ",")` returns, if any. */
  function FirstToken(t: string): (tok: Option<string>)
    ensures tok.Some? ==> |tok.value| > 0 && ',' !in tok.value
  {
    var j := SkipCommas(t, 0);
    if j == |t| then None else Some(t[j..TokenEnd(t, j)])
  }

  /** Where `strtok` ends the first token of `t`: the comma it overwrites, or `|t|`. */
  function FirstTokenEnd(t: string): nat
    requires FirstToken(t).Some?
  {
    TokenEnd(t, SkipCommas(t, 0))
  }

  /**
   * `strtok(buf + p, ",")` for a fresh tokenisation: returns the offset of
   * the first token (or -1 for NULL) and ends the token with a NUL when a
   * comma follows it.
   */
  method Strtok(buf: array<char>, p: nat, ghost t: string) returns (tok: int)
    requires p <= buf.Length && t == CStrFrom(buf[..], p)
    modifies buf
    ensures tok == -1 <==> FirstToken(t).None?
    ensures tok == -1 ==> buf[..] == old(buf[..])
    ensures tok != -1 ==> p <= tok <= buf.Length && CStrFrom(buf[..], tok) == FirstToken(t).value
    ensures tok != -1 ==>
      buf[..] == (if FirstTokenEnd(t) < |t| then old(buf[..])[p + FirstTokenEnd(t) := NUL] else old(buf[..]))
    ensures CommasCut(old(buf[..]), buf[..])
  {
    var u := CStrFrom(buf[..], p);
    var j := SkipCommas(u, 0);
    if j == |u| {
      return -1;
    }
    var k := TokenEnd(u, j);
    ghost var b := buf[..];
    TokenCut(b, p, j, k);
    tok := p + j;
    if k < |u| {
      buf[p + k] := NUL;
      assert buf[..] == b[p + k := NUL];
    }
    assert CStrFrom(buf[..], tok) == u[j..k];
  }

  /** What `strtok` leaves behind when the first token of the text from `p` spans bytes `j` to `k`. */
  lemma TokenCut(b: seq<char>, p: nat, j: nat, k: nat)
    requires p <= |b|
    requires j == SkipCommas(CStrFrom(b, p), 0) < |CStrFrom(b, p)| && k == TokenEnd(CStrFrom(b, p), j)
    ensures var t := CStrFrom(b, p);
      && FirstToken(t) == Some(t[j..k]) && FirstTokenEnd(t) == k && p + j <= |b|
      && (k < |t| ==> p + k < |b| && CStrFrom(b[p + k := NUL], p + j) == t[j..k] && CommasCut(b, b[p + k := NUL]))
      && (k == |t| ==> CStrFrom(b, p + j) == t[j..k])
  {
    var t := CStrFrom(b, p);
    if k < |t| {
      CommaCut(b, p, k);
      CStrFromAfterCut(b, p, p + k);
      CStrFromSuffix(b[p + k := NUL], p, j);
    } else {
      CStrFromSuffix(b, p, j);
    }
  }

  /** `b'` is `b` with some commas, and nothing else, overwritten by NUL. */
  ghost predicate CommasCut(b: seq<char>, b': seq<char>) {
    |b'| == |b| &&
    forall k :: 0 <= k < |b| ==> b'[k] == b[k] || (b'[k] == NUL && b[k] == ',')
  }

  /** Cutting the comma at byte `k` of the string read from `p` is a comma cut. */
  lemma CommaCut(b: seq<char>, p: nat, k: nat)
    requires p <= |b| && k < |CStrFrom(b, p)| && CStrFrom(b, p)[k] == ','
    ensures p + k < |b| && CommasCut(b, b[p + k := NUL])
  {
    assert b[p + k] == b[p..][k];
  }

  // ---------------------------------------------------------------
  // The $PAIR001 acknowledgement
  // ---------------------------------------------------------------

  /** Offset where the echoed command id starts: just after "$PAIR001,". */
  const AckIdOffset: nat := 9
  /** Fixed offset the status token is read from. */
  const AckStatusOffset: nat := 14

  /**
   * The result `lc29_driver_parse_response` computes for the reply `s`.
   * The first token after byte 9 is the echoed id; the status is the first
   * token of the text from byte 14 of the buffer once the first `strtok`
   * has cut its token, so it comes from the id itself when the id runs past
   * byte 14, and is missing when the id ends exactly there.
   */
  function AckOf(s: string, commandId: int): (r: int)
    ensures r <= MaxDeviceStatus || r == CmdSendFail
    ensures r != MnlServiceBusy
    ensures ValidateString(PairAck, s, |s|, 1) != ValidResponse ==> r == CmdSendFail
  {
    if ValidateString(PairAck, s, |s|, 1) != ValidResponse then CmdSendFail
    else AckEcho(s, commandId)
  }

  /** The result once the reply has validated: the echoed id must match, then the status decides. */
  function AckEcho(s: string, commandId: int): (r: int)
    ensures r <= MaxDeviceStatus || r == CmdSendFail
  {
    var t1 := CStrAt(s, AckIdOffset);
    match FirstToken(t1)
    case None => CmdSendFail
    case Some(idToken) =>
      if Atoi(idToken) != commandId then CmdSendFail
      else AckStatus(s, AckIdOffset + FirstTokenEnd(t1))
  }

  /**
   * The status the second `strtok` reads once the first has ended the echoed
   * id at byte `k1` of `s`: the first token of the text from byte 14, which
   * stops at `k1` when `k1` is at or after 14. A status above 5 is refused.
   */
  function AckStatus(s: string, k1: nat): (r: int)
    ensures r <= MaxDeviceStatus || r == CmdSendFail
  {
    var t2 := if AckStatusOffset <= k1 <= |s| then s[AckStatusOffset..k1] else CStrAt(s, AckStatusOffset);
    match FirstToken(t2)
    case None => CmdSendFail
    case Some(statusToken) =>
      var status := Atoi(statusToken);
      if status > MaxDeviceStatus then CmdSendFail else status
  }

  /**
   * With a three-digit echoed id the id token ends at the comma at byte 12,
   * so byte 14, where the status is read, is the `*` of the checksum: `atoi`
   * reads 0 from it and the command counts as accepted whatever result the
   * module sent at byte 13.
   */
  lemma ThreeDigitEchoReadsStatusZero(s: string, commandId: int)
    requires NoNul(s) && ValidateString(PairAck, s, |s|, 1) == ValidResponse
    requires |s| > AckStatusOffset && s[12] == ',' && s[AckStatusOffset] == '*'
    requires forall j :: AckIdOffset <= j < 12 ==> '0' <= s[j] <= '9'
    requires Atoi(s[AckIdOffset..12]) == commandId
    ensures AckOf(s, commandId) == CmdSendSuccess
  {
    ThreeDigitEcho(s, CStrAt(s, AckIdOffset));
    StarStatus(s, CStrAt(s, AckStatusOffset));
  }

  /** The id token of such a reply is its three digits, ended by the comma at byte 12. */
  lemma ThreeDigitEcho(s: string, t1: string)
    requires |s| > AckStatusOffset && s[12] == ',' && t1 == CStrAt(s, AckIdOffset)
    requires forall j :: AckIdOffset <= j < 12 ==> '0' <= s[j] <= '9'
    ensures FirstToken(t1) == Some(s[AckIdOffset..12]) && FirstTokenEnd(t1) == 3
  {
    assert t1[0] == s[AckIdOffset] && t1[1] == s[AckIdOffset + 1] && t1[2] == s[AckIdOffset + 2] && t1[3] == ',';
    assert SkipCommas(t1, 0) == 0;
    assert t1[0..] == t1;
    assert IndexOf(t1, ',') == 3;
    assert t1[0..3] == s[AckIdOffset..12];
  }

  /** A status text that starts with `*` is a token `atoi` reads as 0. */
  lemma StarStatus(s: string, t2: string)
    requires |s| > AckStatusOffset && s[AckStatusOffset] == '*' && t2 == CStrAt(s, AckStatusOffset)
    ensures FirstToken(t2).Some? && Atoi(FirstToken(t2).value) == 0
  {
    assert t2[0] == '*';
    assert SkipCommas(t2, 0) == 0;
    AtoiOfNonNumeric(FirstToken(t2).value);
  }

  /**
   * With a four-digit echoed id, as the `$PAIR6010` and `$PAIR6011`
   * acknowledgements carry, the id token ends at the comma at byte 13, so
   * byte 14 is the result the module sent: a digit up to 5 is returned, and
   * a larger one is CMD_SEND_FAIL.
   */
  lemma FourDigitEchoReadsStatus(s: string, commandId: int)
    requires NoNul(s) && ValidateString(PairAck, s, |s|, 1) == ValidResponse
    requires |s| > AckStatusOffset + 1 && s[13] == ',' && s[AckStatusOffset + 1] == '*'
    requires forall j :: AckIdOffset <= j < 13 ==> '0' <= s[j] <= '9'
    requires Atoi(s[AckIdOffset..13]) == commandId
    requires '0' <= s[AckStatusOffset] <= '9'
    ensures var v := DigitValue(s[AckStatusOffset]);
      AckOf(s, commandId) == if v > MaxDeviceStatus then CmdSendFail else v
  {
    EchoToken(s, 13);
    DigitStatus(s, AckStatusOffset);
  }

  /** An echoed id of digits from byte 9 up to the comma at byte `k` is the first token, ending at that comma. */
  lemma EchoToken(s: string, k: nat)
    requires AckIdOffset < k < |s| && s[k] == ','
    requires forall j :: AckIdOffset <= j < k ==> '0' <= s[j] <= '9'
    ensures var t1 := CStrAt(s, AckIdOffset);
      FirstToken(t1) == Some(s[AckIdOffset..k]) && FirstTokenEnd(t1) == k - AckIdOffset
  {
    var t1 := CStrAt(s, AckIdOffset);
    assert forall j :: 0 <= j < k - AckIdOffset ==> t1[j] == s[AckIdOffset + j];
    assert t1[k - AckIdOffset] == ',';
    assert SkipCommas(t1, 0) == 0;
    assert t1[0..] == t1;
    assert IndexOf(t1, ',') == k - AckIdOffset;
    assert t1[0..k - AckIdOffset] == s[AckIdOffset..k];
  }

  /** A status text that is a digit followed by `*` is a token `atoi` reads as that digit. */
  lemma DigitStatus(s: string, p: nat)
    requires p + 1 < |s| && '0' <= s[p] <= '9' && s[p + 1] == '*'
    ensures var t2 := CStrAt(s, p);
      FirstToken(t2).Some? && Atoi(FirstToken(t2).value) == DigitValue(s[p])
  {
    var t2 := CStrAt(s, p);
    assert t2[0] == s[p] && t2[1] == '*';
    assert SkipCommas(t2, 0) == 0;
    var tok := FirstToken(t2).value;
    assert tok == [s[p]] + tok[1..] && tok[1] == '*';
    StrtolOfDigits([s[p]], tok[1..]);
    assert DigitsValue([s[p]], 10) == DigitValue(s[p]) by {
      assert [s[p]][..0] == [];
    }
  }

  /**
   * The acknowledgement parse with the status read as the next token after
   * the echoed id, as `strtok(NULL, ",")` would continue from the comma
   * the first call cut.
   */
  function AckOfCorrected(s: string, commandId: int): (r: int)
    ensures r <= MaxDeviceStatus || r == CmdSendFail
    ensures ValidateString(PairAck, s, |s|, 1) != ValidResponse ==> r == CmdSendFail
  {
    if ValidateString(PairAck, s, |s|, 1) != ValidResponse then CmdSendFail
    else
      var t1 := CStrAt(s, AckIdOffset);
      match FirstToken(t1)
      case None => CmdSendFail
      case Some(idToken) =>
        var k1 := AckIdOffset + FirstTokenEnd(t1);
        if Atoi(idToken) != commandId || k1 >= |s| then CmdSendFail
        else
          match FirstToken(CStrAt(s, k1 + 1))
          case None => CmdSendFail
          case Some(statusToken) =>
            var status := Atoi(statusToken);
            if status > MaxDeviceStatus then CmdSendFail else status
  }

  /**
   * Whatever the width of the echoed id, the corrected parse returns the
   * one-digit result that follows it, or CMD_SEND_FAIL above 5.
   */
  lemma CorrectedAckReadsStatus(s: string, commandId: int, k: nat)
    requires NoNul(s) && ValidateString(PairAck, s, |s|, 1) == ValidResponse
    requires AckIdOffset < k && k + 2 < |s| && s[k] == ',' && s[k + 2] == '*'
    requires forall j :: AckIdOffset <= j < k ==> '0' <= s[j] <= '9'
    requires Atoi(s[AckIdOffset..k]) == commandId
    requires '0' <= s[k + 1] <= '9'
    ensures var v := DigitValue(s[k + 1]);
      AckOfCorrected(s, commandId) == if v > MaxDeviceStatus then CmdSendFail else v
  {
    var t1 := CStrAt(s, AckIdOffset);
    EchoToken(s, k);
    assert AckIdOffset + FirstTokenEnd(t1) == k;
    DigitStatus(s, k + 1);
  }

  /**
   * On the same three-digit acknowledgement carrying result `d`, the parse
   * as written reports success, while the corrected parse returns `d`.
   */
  lemma ThreeDigitEchoIgnoresResult(s: string, commandId: int)
    requires NoNul(s) && ValidateString(PairAck, s, |s|, 1) == ValidResponse
    requires |s| > AckStatusOffset && s[12] == ',' && s[AckStatusOffset] == '*'
    requires forall j :: AckIdOffset <= j < 12 ==> '0' <= s[j] <= '9'
    requires Atoi(s[AckIdOffset..12]) == commandId
    requires '0' <= s[13] <= '9'
    ensures AckOf(s, commandId) == CmdSendSuccess
    ensures var v := DigitValue(s[13]);
      AckOfCorrected(s, commandId) == if v > MaxDeviceStatus then CmdSendFail else v
  {
    ThreeDigitEchoReadsStatusZero(s, commandId);
    CorrectedAckReadsStatus(s, commandId, 12);
  }

  /**
   * `lc29_driver_parse_response`: validates the reply against "$PAIR001",
   * takes the echoed id with `strtok` from byte 9 and the status with a
   * second `strtok` from byte 14, and returns the raw status (any value up
   * to 5, negatives included) or CMD_SEND_FAIL.
   */
  method ParseResponse(buf: array<char>, commandId: int) returns (r: int)
    requires IsCBuffer(buf[..]) && AckStatusOffset < buf.Length
    modifies buf
    ensures r == AckOf(CStr(old(buf[..])), commandId)
    ensures CommasCut(old(buf[..]), buf[..])
  {
    ghost var b := buf[..];
    var s := CStr(buf[..]);
    if ValidateString(PairAck, s, |s|, 1) != ValidResponse {
      return CmdSendFail;
    }
    r := ParseAckEcho(buf, b, s, commandId);
  }

  /** The rest of `lc29_driver_parse_response` once the reply has validated: the two `strtok` stages. */
  method ParseAckEcho(buf: array<char>, ghost b: seq<char>, ghost s: string, commandId: int) returns (r: int)
    requires IsCBuffer(b) && b == buf[..] && s == CStr(b) && AckIdOffset <= |s| && AckStatusOffset < |b|
    modifies buf
    ensures r == AckEcho(s, commandId)
    ensures CommasCut(b, buf[..])
  {
    CStrFromOfCBuffer(b, AckIdOffset);
    ghost var t1 := CStrAt(s, AckIdOffset);
    var idTok := Strtok(buf, AckIdOffset, t1);
    if idTok == -1 {
      EchoMissing(s, commandId);
      return CmdSendFail;
    }
    ghost var e := FirstTokenEnd(t1);
    ghost var k1 := AckIdOffset + e;
    IdCutAt(b, s, t1, e, k1);
    assert buf[..] == (if k1 < |s| then b[k1 := NUL] else b);
    r := ParseEchoedId(buf, b, s, k1, idTok, commandId);
  }

  /**
   * The id comparison and the status stage, once the first `strtok` has
   * returned the echoed id at `idTok` and cut it at byte `k1`.
   */
  method ParseEchoedId(buf: array<char>, ghost b: seq<char>, ghost s: string, ghost k1: nat, idTok: nat, commandId: int)
    returns (r: int)
    requires IsCBuffer(b) && s == CStr(b) && AckStatusOffset < |b| && AckIdOffset <= |s|
    requires FirstToken(CStrAt(s, AckIdOffset)).Some? && k1 == AckIdOffset + FirstTokenEnd(CStrAt(s, AckIdOffset))
    requires k1 <= |s| && buf[..] == (if k1 < |s| then b[k1 := NUL] else b)
    requires idTok <= buf.Length && CStrFrom(buf[..], idTok) == FirstToken(CStrAt(s, AckIdOffset)).value
    modifies buf
    ensures r == AckEcho(s, commandId)
    ensures CommasCut(old(buf[..]), buf[..])
  {
    var responseCmdId := Atoi(CStrFrom(buf[..], idTok));
    if responseCmdId != commandId {
      EchoMismatch(s, commandId);
      return CmdSendFail;
    }
    EchoMatch(s, commandId, k1);
    r := ParseAckStatus(buf, b, s, k1);
  }

  lemma EchoMissing(s: string, commandId: int)
    requires FirstToken(CStrAt(s, AckIdOffset)).None?
    ensures AckEcho(s, commandId) == CmdSendFail
  {
  }

  lemma EchoMismatch(s: string, commandId: int)
    requires FirstToken(CStrAt(s, AckIdOffset)).Some?
    requires Atoi(FirstToken(CStrAt(s, AckIdOffset)).value) != commandId
    ensures AckEcho(s, commandId) == CmdSendFail
  {
  }

  lemma EchoMatch(s: string, commandId: int, k1: nat)
    requires FirstToken(CStrAt(s, AckIdOffset)).Some? && k1 == AckIdOffset + FirstTokenEnd(CStrAt(s, AckIdOffset))
    requires Atoi(FirstToken(CStrAt(s, AckIdOffset)).value) == commandId
    ensures AckEcho(s, commandId) == AckStatus(s, k1)
  {
  }

  /** Where the first `strtok` of the acknowledgement parser writes its NUL, in buffer terms. */
  lemma IdCutAt(b: seq<char>, s: string, t1: string, e: nat, k1: nat)
    requires IsCBuffer(b) && s == CStr(b) && AckIdOffset <= |s| && t1 == CStrAt(s, AckIdOffset)
    requires e <= |t1| && k1 == AckIdOffset + e
    ensures k1 <= |s|
    ensures (e < |t1|) == (k1 < |s|)
    ensures AckIdOffset + e == k1
  {
  }

  /**
   * The second half of `lc29_driver_parse_response`: `strtok` from byte 14
   * of the buffer after the first token was cut at `k1`, then `atoi` of the
   * status token, refused above 5.
   */
  method ParseAckStatus(buf: array<char>, ghost b: seq<char>, ghost s: string, ghost k1: nat) returns (r: int)
    requires IsCBuffer(b) && s == CStr(b) && AckStatusOffset < |b| && AckIdOffset <= k1 <= |s|
    requires buf[..] == (if k1 < |s| then b[k1 := NUL] else b)
    modifies buf
    ensures r == AckStatus(s, k1)
    ensures CommasCut(old(buf[..]), buf[..])
  {
    StatusTextAfterFirstCut(b, s, k1);
    ghost var t2 := if AckStatusOffset <= k1 then s[AckStatusOffset..k1] else CStrAt(s, AckStatusOffset);
    var statusTok := Strtok(buf, AckStatusOffset, t2);
    if statusTok == -1 {
      StatusMissing(s, k1);
      return CmdSendFail;
    }
    var status := Atoi(CStrFrom(buf[..], statusTok));
    StatusOf(s, k1);
    if status > MaxDeviceStatus {
      return CmdSendFail;
    }
    return status;
  }

  lemma StatusMissing(s: string, k1: nat)
    requires FirstToken(if AckStatusOffset <= k1 <= |s| then s[AckStatusOffset..k1] else CStrAt(s, AckStatusOffset)).None?
    ensures AckStatus(s, k1) == CmdSendFail
  {
  }

  lemma StatusOf(s: string, k1: nat)
    requires FirstToken(if AckStatusOffset <= k1 <= |s| then s[AckStatusOffset..k1] else CStrAt(s, AckStatusOffset)).Some?
    ensures var v := Atoi(FirstToken(if AckStatusOffset <= k1 <= |s| then s[AckStatusOffset..k1]
                                     else CStrAt(s, AckStatusOffset)).value);
      AckStatus(s, k1) == if v > MaxDeviceStatus then CmdSendFail else v
  {
  }

  /** The text from byte 14 once the first token has been cut at `k1`. */
  lemma StatusTextAfterFirstCut(b: seq<char>, s: string, k1: nat)
    requires IsCBuffer(b) && s == CStr(b) && AckStatusOffset < |b| && AckIdOffset <= k1 <= |s|
    ensures var b1 := if k1 < |s| then b[k1 := NUL] else b;
      CStrFrom(b1, AckStatusOffset) ==
      (if AckStatusOffset <= k1 then s[AckStatusOffset..k1] else CStrAt(s, AckStatusOffset))
  {
    CStrFromOfCBuffer(b, AckStatusOffset);
    if k1 < |s| {
      if AckStatusOffset <= k1 {
        CStrFromAfterCut(b, AckStatusOffset, k1);
      } else {
        assert b[k1 := NUL][AckStatusOffset..] == b[AckStatusOffset..];
      }
    }
  }

  // ---------------------------------------------------------------
  // Query replies
  // ---------------------------------------------------------------

  /**
   * The values `lc29_driver_parse_query_response` accepts from the reply
   * `s`: it must validate against `commandId`, checksum included, and the
   * splitter, skipping the identifier and its comma, must return exactly
   * `numArgs` values.
   */
  function QueryFields(s: string, commandId: string, length: nat, numArgs: int): (q: Option<seq<int32>>)
    ensures q.Some? ==> |q.value| == numArgs
    ensures q.Some? ==> ValidateString(commandId, s, length, 1) == ValidResponse
  {
    if ValidateString(commandId, s, length, 1) != ValidResponse then None
    else
      var f := SplitFields(CStrAt(s, |commandId| + 1), numArgs);
      if |f| == numArgs then Some(f) else None
  }

  /**
   * `lc29_driver_parse_query_response`: on success the first `numArgs`
   * entries of `parsedQuery` hold the reply's fields. When validation
   * passes the splitter runs whatever the count, so a reply with too few
   * fields still overwrites a prefix of `parsedQuery`.
   */
  method ParseQueryResponse(buf: array<char>, commandId: string, length: nat, numArgs: int, parsedQuery: array<int32>)
    returns (r: int)
    requires IsCBuffer(buf[..]) && |commandId| + 1 <= buf.Length
    requires (if numArgs < 0 then 0 else numArgs) < parsedQuery.Length
    modifies buf, parsedQuery
    ensures OnlyDelimitersCut(old(buf[..]), buf[..])
    ensures var s := CStr(old(buf[..]));
      && (r == CmdSendSuccess <==> QueryFields(s, commandId, length, numArgs).Some?)
      && (r == CmdSendSuccess || r == CmdSendFail)
      && (r == CmdSendSuccess ==> parsedQuery[..numArgs] == QueryFields(s, commandId, length, numArgs).value)
      && (ValidateString(commandId, s, length, 1) == ValidResponse ==>
            var f := SplitFields(CStrAt(s, |commandId| + 1), numArgs);
            && |f| <= parsedQuery.Length
            && parsedQuery[..|f|] == f
            && forall k :: |f| <= k < parsedQuery.Length ==> parsedQuery[k] == old(parsedQuery[k]))
      && (ValidateString(commandId, s, length, 1) != ValidResponse ==>
            parsedQuery[..] == old(parsedQuery[..]) && buf[..] == old(buf[..]))
  {
    ghost var b := buf[..];
    var s := CStr(buf[..]);
    if ValidateString(commandId, s, length, 1) != ValidResponse {
      return CmdSendFail;
    }
    CStrFromOfCBuffer(b, |commandId| + 1);
    var count := ParseStringByComma(|commandId| + 1, buf, parsedQuery, numArgs);
    if count != numArgs {
      return CmdSendFail;
    }
    return CmdSendSuccess;
  }
}
