/**
 * Rewriting SQL text with an ordered table of identifier replacements, as the EPSG dialect
 * adapter does: the left-to-right replace-all of one key, its application for every entry in
 * table order, and what that rewriting guarantees.
 */
module EpsgRewrite {
  import opened JavaText

  /** One entry of the ordered replacement table: an MS-Access name and the name that replaces it. */
  datatype Entry = Entry(key: string, value: string)

  /** Every key is non-empty: an empty key would match again after every replacement. */
  ghost predicate NonEmptyKeys(es: seq<Entry>) {
    forall i :: 0 <= i < |es| ==> es[i].key != []
  }

  /**
   * Reference definition of replace-all on the suffix s[i..]: scan left to right; where `key`
   * starts, emit `val` and continue after the key; elsewhere keep the character. Emitted text is
   * never scanned again.
   */
  function ReplaceFrom(s: string, key: string, val: string, i: nat): string
    requires key != [] && i <= |s|
    decreases |s| - i
  {
    if i == |s| then []
    else if Occurs(s, key, i) then val + ReplaceFrom(s, key, val, i + |key|)
    else [s[i]] + ReplaceFrom(s, key, val, i + 1)
  }

  /** Replace every occurrence of `key` in `s` by `val`, left to right. */
  function ReplaceAll(s: string, key: string, val: string): string
    requires key != []
  {
    ReplaceFrom(s, key, val, 0)
  }

  /** `pat` does not start anywhere at or after index i of `s`. */
  ghost predicate AbsentFrom(s: string, pat: string, i: int) {
    forall p :: i <= p ==> !Occurs(s, pat, p)
  }

  /** A character that does not start the key is copied as it is. */
  lemma CopiesOne(s: string, key: string, val: string, i: nat)
    requires key != [] && i < |s| && !Occurs(s, key, i)
    ensures ReplaceFrom(s, key, val, i) == [s[i]] + ReplaceFrom(s, key, val, i + 1)
  {
  }

  /** Splitting s[i..j] after its first character. */
  lemma ConsSlice(s: string, i: nat, j: nat, rest: string)
    requires i < j <= |s|
    ensures [s[i]] + (s[i + 1..j] + rest) == s[i..j] + rest
  {
    assert [s[i]] + s[i + 1..j] == s[i..j];
  }

  /** The characters from i up to the next occurrence of the key are copied unchanged. */
  lemma {:induction false} CopiesUpTo(s: string, key: string, val: string, i: nat, j: nat)
    requires key != [] && i <= j <= |s|
    requires forall p :: i <= p < j ==> !Occurs(s, key, p)
    ensures ReplaceFrom(s, key, val, i) == s[i..j] + ReplaceFrom(s, key, val, j)
    decreases j - i
  {
    if i < j {
      CopiesOne(s, key, val, i);
      CopiesUpTo(s, key, val, i + 1, j);
      ConsSlice(s, i, j, ReplaceFrom(s, key, val, j));
    } else {
      assert s[i..j] == [];
    }
  }

  /** At the first occurrence from i the key is replaced and scanning resumes right after it. */
  lemma ReplacesFirst(s: string, key: string, val: string, i: nat, j: nat)
    requires key != [] && i <= j && Occurs(s, key, j)
    requires forall p :: i <= p < j ==> !Occurs(s, key, p)
    ensures ReplaceFrom(s, key, val, i) == s[i..j] + val + ReplaceFrom(s, key, val, j + |key|)
  {
    CopiesUpTo(s, key, val, i, j);
  }

  /** A suffix in which the key does not occur is kept unchanged. */
  lemma KeepsWhenAbsent(s: string, key: string, val: string, i: nat)
    requires key != [] && i <= |s| && AbsentFrom(s, key, i)
    ensures ReplaceFrom(s, key, val, i) == s[i..]
  {
    CopiesUpTo(s, key, val, i, |s|);
  }

  /** Two strings that agree from f and from g agree on an occurrence there. */
  lemma OccursAcross(m: string, f: nat, t: string, g: nat, pat: string)
    requires f <= |m| && g <= |t| && m[f..] == t[g..]
    ensures Occurs(m, pat, f) ==> Occurs(t, pat, g)
    ensures Occurs(t, pat, g) ==> Occurs(m, pat, f)
  {
    if f + |pat| <= |m| {
      assert m[f..f + |pat|] == m[f..][..|pat|];
      assert t[g..g + |pat|] == t[g..][..|pat|];
    }
  }

  /** Absence of the key carries over between two strings that agree from f and from g. */
  lemma AbsentAcross(m: string, f: nat, t: string, g: nat, pat: string)
    requires f <= |m| && g <= |t| && m[f..] == t[g..] && AbsentFrom(m, pat, f)
    ensures AbsentFrom(t, pat, g)
  {
    forall p | g <= p ensures !Occurs(t, pat, p) {
      if p <= |t| {
        assert m[f + (p - g)..] == m[f..][p - g..] == t[g..][p - g..] == t[p..];
        OccursAcross(m, f + (p - g), t, p, pat);
      }
    }
  }

  /**
   * The working text `m` of adaptSQL's loop is the finished part `done` followed by the
   * unsearched rest text[pos..] of the original. The first match in that rest, at `found` in
   * `m`, is the first match from `pos` in the original, at `g`.
   */
  lemma MatchInRest(text: string, key: string, done: string, pos: nat, m: string, found: nat, g: nat)
    requires pos <= |text| && |done| <= found
    requires m == done + text[pos..] && g == pos + (found - |done|)
    requires Occurs(m, key, found)
    requires forall p :: |done| <= p < found ==> !Occurs(m, key, p)
    ensures Occurs(text, key, g)
    ensures forall p :: pos <= p < g ==> !Occurs(text, key, p)
  {
    forall p | pos <= p < g ensures !Occurs(text, key, p) {
      assert m[|done| + (p - pos)..] == text[p..];
      OccursAcross(m, |done| + (p - pos), text, p, key);
    }
    assert m[found..] == text[g..];
    OccursAcross(m, found, text, g, key);
  }

  /**
   * Splicing `val` over the match: the new working text is the finished part grown by the
   * skipped characters and `val`, followed by the original after the key.
   */
  lemma SpliceText(text: string, key: string, val: string, done: string, pos: nat, m: string,
                   found: nat, g: nat, done': string, pos': nat, next: string)
    requires pos <= |text| && |done| <= found
    requires m == done + text[pos..] && g == pos + (found - |done|)
    requires Occurs(m, key, found)
    requires next == m[..found] + val + m[found + |key|..]
    requires pos' == g + |key| && done' == done + text[pos..g] + val
    ensures pos' <= |text| && next == done' + text[pos'..]
  {
    assert m[..found] == done + text[pos..g];
    assert m[found + |key|..] == text[g + |key|..];
  }

  /** The finished part absorbs the replaced stretch. */
  lemma Regroup(done: string, skipped: string, val: string, rest: string)
    ensures done + (skipped + val + rest) == (done + skipped + val) + rest
  {
  }

  /**
   * One round of adaptSQL's loop: splicing `val` over the first match leaves a working text of
   * the same shape, and the finished part followed by the replace-all of the rest is unchanged.
   */
  lemma SpliceStep(text: string, key: string, val: string, done: string, pos: nat, m: string,
                   found: nat, g: nat, done': string, pos': nat, next: string)
    requires key != [] && pos <= |text| && |done| <= found
    requires m == done + text[pos..] && g == pos + (found - |done|)
    requires Occurs(m, key, found)
    requires forall p :: |done| <= p < found ==> !Occurs(m, key, p)
    requires next == m[..found] + val + m[found + |key|..]
    requires pos' == g + |key| && done' == done + text[pos..g] + val
    ensures pos' <= |text| && next == done' + text[pos'..]
    ensures done + ReplaceFrom(text, key, val, pos) == done' + ReplaceFrom(text, key, val, pos')
  {
    MatchInRest(text, key, done, pos, m, found, g);
    SpliceText(text, key, val, done, pos, m, found, g, done', pos', next);
    ReplacesFirst(text, key, val, pos, g);
    Regroup(done, text[pos..g], val, ReplaceFrom(text, key, val, pos'));
  }

  /**
   * The replacement loop of adaptSQL for one entry: look for the key from `start`, replace it,
   * and resume the search after the inserted text.
   */
  method ReplaceEvery(text: string, oldName: string, newName: string) returns (modified: string)
    requires oldName != []
    ensures modified == ReplaceAll(text, oldName, newName)
  {
    modified := text;
    var start := 0;
    ghost var done: string := [];
    ghost var pos: nat := 0;
    assert text[0..] == text;
    while true
      invariant pos <= |text| && start == |done|
      invariant modified == done + text[pos..]
      invariant ReplaceAll(text, oldName, newName) == done + ReplaceFrom(text, oldName, newName, pos)
      decreases |modified| - start
    {
      var found := IndexOf(modified, oldName, start);
      if found < 0 {
        AbsentAcross(modified, start, text, pos, oldName);
        KeepsWhenAbsent(text, oldName, newName, pos);
        break;
      }
      ghost var g := pos + (found - start);
      ghost var done' := done + text[pos..g] + newName;
      ghost var pos' := g + |oldName|;
      var next := modified[..found] + newName + modified[found + |oldName|..];
      SpliceStep(text, oldName, newName, done, pos, modified, found, g, done', pos', next);
      done, pos := done', pos';
      modified := next;
      start := found + |newName|;
    }
  }

  /** adaptSQL's result: the replace-all of every entry, applied in table order. */
  function AdaptAll(es: seq<Entry>, s: string): string
    requires NonEmptyKeys(es)
    decreases |es|
  {
    if es == [] then s
    else
      assert NonEmptyKeys(es[1..]) by {
        forall i | 0 <= i < |es| - 1 ensures es[1..][i].key != [] {
          assert es[1..][i] == es[i + 1];
        }
      }
      AdaptAll(es[1..], ReplaceAll(s, es[0].key, es[0].value))
  }

  /** A statement in which no key occurs is returned unchanged. */
  lemma {:induction false} AdaptAllUnchanged(es: seq<Entry>, s: string)
    requires NonEmptyKeys(es)
    requires forall i :: 0 <= i < |es| ==> Absent(s, es[i].key)
    ensures AdaptAll(es, s) == s
    decreases |es|
  {
    if es != [] {
      KeepsWhenAbsent(s, es[0].key, es[0].value, 0);
      assert forall i :: 0 <= i < |es| - 1 ==> es[1..][i] == es[i + 1];
      AdaptAllUnchanged(es[1..], s);
    }
  }

  /** No '[' or ']' in `s`. */
  predicate BracketFree(s: string) {
    forall i :: 0 <= i < |s| ==> s[i] != '[' && s[i] != ']'
  }

  /** A bracketed MS-Access identifier: '[', a name without brackets, ']'. */
  predicate Bracketed(k: string) {
    |k| >= 2 && k[0] == '[' && k[|k| - 1] == ']'
    && forall i :: 0 < i < |k| - 1 ==> k[i] != '[' && k[i] != ']'
  }

  /**
   * Text that starts with a bracket-free value `v` cannot start with a tail k[j..] (j >= 1) of a
   * bracketed name k that does not contain `v`: the value would have to hold the closing
   * bracket or lie inside k.
   */
  lemma ValueIsNoTail(v: string, rest: string, k: string, j: nat)
    requires Bracketed(k) && 1 <= j < |k|
    requires BracketFree(v) && Absent(k, v)
    ensures !(|k| - j <= |v + rest| && (v + rest)[..|k| - j] == k[j..])
  {
    var n := |k| - j;
    if |v| >= n {
      assert (v + rest)[n - 1] == v[n - 1];
      assert k[j..][n - 1] == ']';
    } else {
      assert !Occurs(k, v, j);
      assert k[j..][..|v|] == k[j..j + |v|];
      assert (v + rest)[..|v|] == v;
    }
  }

  /**
   * If the rewritten suffix starts with a tail k[j..] (j >= 1) of a bracketed name k, the
   * original suffix started with it too: no replacement value can produce it.
   */
  lemma {:induction false} TailComesFromSource(t: string, i: nat, key: string, v: string, k: string, j: nat)
    requires key != [] && i <= |t| && Bracketed(k) && 1 <= j < |k|
    requires BracketFree(v) && Absent(k, v)
    requires var r := ReplaceFrom(t, key, v, i); |k| - j <= |r| && r[..|k| - j] == k[j..]
    ensures i + (|k| - j) <= |t| && t[i..i + (|k| - j)] == k[j..]
    decreases |t| - i
  {
    if i == |t| {
      assert false;
    } else if Occurs(t, key, i) {
      ValueIsNoTail(v, ReplaceFrom(t, key, v, i + |key|), k, j);
      assert false;
    } else {
      var rest := ReplaceFrom(t, key, v, i + 1);
      CopiesOne(t, key, v, i);
      HeadAndTail(t[i], rest, k, j);
      if |k| - j > 1 {
        TailComesFromSource(t, i + 1, key, v, k, j + 1);
        SliceCons(t, i, i + (|k| - j));
        SliceCons(k, j, |k|);
      }
    }
  }

  /** A prefix k[j..] of [c] + rest starts with c and continues as a prefix of rest. */
  lemma HeadAndTail(c: char, rest: string, k: string, j: nat)
    requires j < |k| && |k| - j <= 1 + |rest| && ([c] + rest)[..|k| - j] == k[j..]
    ensures c == k[j]
    ensures j + 1 < |k| ==> rest[..|k| - (j + 1)] == k[j + 1..]
  {
    var r := [c] + rest;
    assert r[..|k| - j][0] == r[0];
    if j + 1 < |k| {
      assert rest[..|k| - (j + 1)] == r[1..|k| - j];
    }
  }

  /** A non-empty slice is its first character followed by the rest. */
  lemma SliceCons(s: string, i: nat, e: nat)
    requires i < e <= |s|
    ensures s[i..e] == [s[i]] + s[i + 1..e]
  {
  }

  /** After the bracket-free value, no occurrence of k can start inside it or after it. */
  lemma NoNameAfterValue(v: string, rest: string, k: string)
    requires Bracketed(k) && BracketFree(v) && Absent(rest, k)
    ensures Absent(v + rest, k)
  {
    var r := v + rest;
    forall p ensures !Occurs(r, k, p) {
      if 0 <= p < |v| {
        if p + |k| <= |r| {
          assert r[p..p + |k|][0] == r[p] == v[p];
        }
      } else if p >= |v| {
        assert r[|v|..] == rest;
        OccursShift(r, k, |v|, p - |v|);
      }
    }
  }

  /**
   * A kept character c followed by a rewritten rest holds no occurrence of k when c did not
   * start an occurrence of k in the source.
   */
  lemma NoNameAfterChar(s: string, i: nat, key: string, v: string, k: string)
    requires key != [] && i < |s| && Bracketed(k) && BracketFree(v) && Absent(k, v)
    requires !Occurs(s, k, i) && Absent(ReplaceFrom(s, key, v, i + 1), k)
    ensures Absent([s[i]] + ReplaceFrom(s, key, v, i + 1), k)
  {
    var rest := ReplaceFrom(s, key, v, i + 1);
    var r := [s[i]] + rest;
    assert r[1..] == rest;
    forall p ensures !Occurs(r, k, p) {
      if p == 0 {
        if |k| <= |r| && rest[..|k| - 1] == k[1..] {
          TailComesFromSource(s, i + 1, key, v, k, 1);
          assert s[i..i + |k|] == [s[i]] + s[i + 1..i + |k|];
          assert r[..|k|] == [s[i]] + rest[..|k| - 1];
        } else if |k| <= |r| {
          assert r[0..|k|][1..] == r[1..][..|k| - 1];
        }
      } else if p > 0 {
        OccursShift(r, k, 1, p - 1);
      }
    }
  }

  /** A match of `pat` at index p of `s[d..]` is a match at index d + p of `s`. */
  lemma OccursShift(s: string, pat: string, d: nat, p: int)
    requires d <= |s|
    ensures Occurs(s[d..], pat, p) ==> Occurs(s, pat, d + p)
    ensures p >= 0 && Occurs(s, pat, d + p) ==> Occurs(s[d..], pat, p)
  {
    if 0 <= p && p + |pat| <= |s| - d {
      assert s[d..][p..p + |pat|] == s[d + p..d + p + |pat|];
    }
  }

  /**
   * Replacing `key` by a bracket-free value that does not occur inside the bracketed name `k`
   * leaves no occurrence of `k`, provided `k` is the replaced key or did not occur before.
   */
  lemma {:induction false} LeavesNameOut(s: string, i: nat, key: string, v: string, k: string)
    requires key != [] && i <= |s| && Bracketed(k) && BracketFree(v) && Absent(k, v)
    requires k == key || AbsentFrom(s, k, i)
    ensures Absent(ReplaceFrom(s, key, v, i), k)
    decreases |s| - i
  {
    if i == |s| {
      assert ReplaceFrom(s, key, v, i) == [];
    } else if Occurs(s, key, i) {
      LeavesNameOut(s, i + |key|, key, v, k);
      NoNameAfterValue(v, ReplaceFrom(s, key, v, i + |key|), k);
    } else {
      LeavesNameOut(s, i + 1, key, v, k);
      NoNameAfterChar(s, i, key, v, k);
    }
  }

  /** Later entries never bring back a bracketed name that is absent. */
  lemma {:induction false} AdaptKeepsNameOut(es: seq<Entry>, s: string, k: string)
    requires NonEmptyKeys(es) && Bracketed(k) && Absent(s, k)
    requires forall i :: 0 <= i < |es| ==> BracketFree(es[i].value) && Absent(k, es[i].value)
    ensures Absent(AdaptAll(es, s), k)
    decreases |es|
  {
    if es != [] {
      LeavesNameOut(s, 0, es[0].key, es[0].value, k);
      assert forall i :: 0 <= i < |es| - 1 ==> es[1..][i] == es[i + 1];
      AdaptKeepsNameOut(es[1..], ReplaceAll(s, es[0].key, es[0].value), k);
    }
  }

  /**
   * With bracketed keys, bracket-free values and no value occurring inside any key, the
   * rewritten statement holds no occurrence of any key.
   */
  lemma {:induction false} AdaptRemovesAllKeys(es: seq<Entry>, s: string)
    requires NonEmptyKeys(es)
    requires forall i :: 0 <= i < |es| ==> Bracketed(es[i].key) && BracketFree(es[i].value)
    requires forall i, j :: 0 <= i < |es| && 0 <= j < |es| ==> Absent(es[i].key, es[j].value)
    ensures forall i :: 0 <= i < |es| ==> Absent(AdaptAll(es, s), es[i].key)
    decreases |es|
  {
    if es != [] {
      var s1 := ReplaceAll(s, es[0].key, es[0].value);
      var rest := es[1..];
      assert forall i :: 0 <= i < |rest| ==> rest[i] == es[i + 1];
      AdaptRemovesAllKeys(rest, s1);
      forall i | 0 <= i < |es| ensures Absent(AdaptAll(es, s), es[i].key) {
        if i == 0 {
          LeavesNameOut(s, 0, es[0].key, es[0].value, es[0].key);
          AdaptKeepsNameOut(rest, s1, es[0].key);
        } else {
          assert es[i] == rest[i - 1];
        }
      }
    }
  }
}
