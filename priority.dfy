/** The check applied to one answer to the priority prompt
    (todo.py, `input_priority`), on ASCII text. */
module Priority {
  import opened Wrappers

  /** The priorities a user may choose. */
  const Levels: set<string> := {"High", "Medium", "Low"}

  /** The characters Python's `str.isspace` accepts among ASCII ones. */
  predicate IsSpace(c: char)
  {
    // space; tab, line feed, vertical tab, form feed, carriage return;
    // the four information separators
    c == ' ' || (9 <= c as int <= 13) || (28 <= c as int <= 31)
  }

  /** `s` without its leading white space: a suffix of `s` that starts with
      a non-space character, or is empty, with only spaces cut off. */
  function TrimStart(s: string): (r: string)
    ensures |r| <= |s| && r == s[|s| - |r|..]
    ensures r == [] || !IsSpace(r[0])
    ensures forall k :: 0 <= k < |s| - |r| ==> IsSpace(s[k])
  {
    if s != [] && IsSpace(s[0]) then TrimStart(s[1..]) else s
  }

  /** `s` without its trailing white space: a prefix of `s` that ends with
      a non-space character, or is empty, with only spaces cut off. */
  function TrimEnd(s: string): (r: string)
    ensures |r| <= |s| && r == s[..|r|]
    ensures r == [] || !IsSpace(r[|r| - 1])
    ensures forall k :: |r| <= k < |s| ==> IsSpace(s[k])
  {
    if s != [] && IsSpace(s[|s| - 1]) then TrimEnd(s[..|s| - 1]) else s
  }

  /** Python's `str.strip()` with no argument, on ASCII text. */
  function Strip(s: string): (r: string)
    ensures r == [] || (!IsSpace(r[0]) && !IsSpace(r[|r| - 1]))
    ensures exists i, j ::
              0 <= i <= j <= |s| && r == s[i..j] &&
              (forall k :: 0 <= k < i ==> IsSpace(s[k])) &&
              (forall k :: j <= k < |s| ==> IsSpace(s[k]))
  {
    var t := TrimStart(s);
    var r := TrimEnd(t);
    var i := |s| - |t|;
    var j := i + |r|;
    assert r == s[i..j];
    forall k | j <= k < |s| ensures IsSpace(s[k]) {
      assert s[k] == t[k - i];
    }
    r
  }

  predicate IsLower(c: char) { 'a' <= c <= 'z' }

  predicate IsUpper(c: char) { 'A' <= c <= 'Z' }

  function ToUpper(c: char): char
  {
    if IsLower(c) then (c as int - 32) as char else c
  }

  function ToLower(c: char): char
  {
    if IsUpper(c) then (c as int + 32) as char else c
  }

  function LowerAll(s: string): (r: string)
    ensures |r| == |s|
    ensures forall k :: 0 <= k < |r| ==> !IsUpper(r[k]) && ToLower(r[k]) == ToLower(s[k])
  {
    seq(|s|, i requires 0 <= i < |s| => ToLower(s[i]))
  }

  /** Python's `str.capitalize()` on ASCII text: the first character in
      upper case, every other one in lower case. */
  function Capitalize(s: string): (r: string)
    ensures |r| == |s|
    ensures r == [] || !IsLower(r[0])
    ensures forall k :: 1 <= k < |r| ==> !IsUpper(r[k])
    ensures LowerAll(r) == LowerAll(s)
  {
    if s == [] then [] else [ToUpper(s[0])] + LowerAll(s[1..])
  }

  /** One stripped answer to the priority prompt: an empty answer chooses
      "Medium", a level written in any mix of cases chooses that level, and
      anything else is rejected (`None`), upon which the caller asks again. */
  function NormalizePriority(p: string): (r: Option<string>)
    ensures p == "" ==> r == Some("Medium")
    ensures r.Some? ==> r.value in Levels
  {
    if p == "" then Some("Medium")
    else
      var capitalized := Capitalize(p);
      if capitalized in Levels then Some(capitalized) else None
  }

  /** One raw answer, stripped first as the prompt does. */
  function ResponsePriority(raw: string): (r: Option<string>)
    ensures (forall k :: 0 <= k < |raw| ==> IsSpace(raw[k])) ==> r == Some("Medium")
    ensures r.Some? ==> r.value in Levels
  {
    var p := Strip(raw);
    assert p != [] ==> !IsSpace(p[0]);
    NormalizePriority(p)
  }

  /** An answer padded with white space on either side is judged as the
      answer without the padding. */
  lemma ResponsePriorityPadded(a: string, p: string, b: string)
    requires forall k :: 0 <= k < |a| ==> IsSpace(a[k])
    requires forall k :: 0 <= k < |b| ==> IsSpace(b[k])
    requires p == [] || (!IsSpace(p[0]) && !IsSpace(p[|p| - 1]))
    ensures ResponsePriority(a + p + b) == NormalizePriority(p)
  {
    var s := a + p + b;
    var r := Strip(s);
    var i, j :| 0 <= i <= j <= |s| && r == s[i..j] &&
      (forall k :: 0 <= k < i ==> IsSpace(s[k])) &&
      (forall k :: j <= k < |s| ==> IsSpace(s[k]));
    if p == [] {
      assert r == [];
    } else {
      assert s[|a|] == p[0];
      assert s[|a| + |p| - 1] == p[|p| - 1];
      assert i <= |a|;
      assert |a| + |p| <= j;
      assert r != [];
      assert s[i] == r[0] && s[j - 1] == r[|r| - 1];
      assert i == |a| && j == |a| + |p|;
      assert r == p;
    }
  }

  /** A level, capital first letter and lower-case rest. */
  predicate IsCapitalizedWord(w: string)
  {
    w != [] && IsUpper(w[0]) && forall k :: 1 <= k < |w| ==> IsLower(w[k])
  }

  lemma LevelsAreCapitalizedWords()
    ensures forall v :: v in Levels ==> IsCapitalizedWord(v)
  {
  }

  /** Capitalising gives a capitalised word exactly when the text and the
      word agree up to case. */
  lemma CapitalizeMatches(p: string, w: string)
    requires IsCapitalizedWord(w)
    ensures Capitalize(p) == w <==> LowerAll(p) == LowerAll(w)
  {
  }

  /** The answers accepted are exactly the empty one and the three levels
      in any mix of cases, and each is mapped to the level it spells. */
  lemma NormalizePriorityAccepts(p: string, v: string)
    requires v in Levels
    ensures NormalizePriority(p) == Some(v) <==> (p == "" && v == "Medium") || LowerAll(p) == LowerAll(v)
  {
    LevelsAreCapitalizedWords();
    CapitalizeMatches(p, v);
    if p == "" {
      assert LowerAll(p) == [];
    }
  }

  /** Each level, written as the prompt shows it, is accepted as itself,
      so normalising twice changes nothing. */
  lemma NormalizePriorityIdempotent(p: string)
    ensures NormalizePriority(p).Some? ==> NormalizePriority(NormalizePriority(p).value) == NormalizePriority(p)
  {
    var r := NormalizePriority(p);
    if r.Some? {
      var v := r.value;
      LevelsAreCapitalizedWords();
      CapitalizeMatches(v, v);
    }
  }
}
