/** Go string helpers the repository leans on, over ASCII text, and the digest grammar built from them. */
module Text {

  type Bytes = seq<int>

  datatype Option<+T> = None | Some(value: T)

  datatype Result<+T> = Success(value: T) | Failure(error: string)

  /** The code points for which unicode.IsSpace holds. */
  predicate IsSpace(c: char) {
    var n := c as int;
    0x09 <= n <= 0x0D || n == 0x20 || n == 0x85 || n == 0xA0 || n == 0x1680 || 0x2000 <= n <= 0x200A
    || n == 0x2028 || n == 0x2029 || n == 0x202F || n == 0x205F || n == 0x3000
  }

  function TrimLeft(s: string): string {
    if s != [] && IsSpace(s[0]) then TrimLeft(s[1..]) else s
  }

  function TrimRight(s: string): string {
    if s != [] && IsSpace(s[|s| - 1]) then TrimRight(s[..|s| - 1]) else s
  }

  /** strings.TrimSpace */
  function TrimSpace(s: string): string { TrimRight(TrimLeft(s)) }

  function LowerChar(c: char): char {
    if 'A' <= c <= 'Z' then (c as int + 32) as char else c
  }

  /** strings.ToLower on ASCII. */
  function ToLower(s: string): (r: string)
    ensures |r| == |s|
  {
    seq(|s|, i requires 0 <= i < |s| => LowerChar(s[i]))
  }

  /** The text before and after the first occurrence of sep, if there is one: strings.SplitN(s, sep, 2). */
  function Cut(s: string, sep: char): Option<(string, string)> {
    if s == [] then None
    else if s[0] == sep then Some(([], s[1..]))
    else match Cut(s[1..], sep)
      case None => None
      case Some(parts) => Some(([s[0]] + parts.0, parts.1))
  }

  /** strings.TrimSuffix */
  function TrimSuffix(s: string, suffix: string): string {
    if |suffix| <= |s| && s[|s| - |suffix|..] == suffix then s[..|s| - |suffix|] else s
  }

  predicate OccursAt(s: string, sub: string, i: nat) { i + |sub| <= |s| && s[i..i + |sub|] == sub }

  /** strings.Contains */
  predicate Contains(s: string, sub: string) { exists i: nat | i <= |s| :: OccursAt(s, sub, i) }

  lemma {:induction false} CutAtFirst(a: string, sep: char, b: string)
    requires sep !in a
    ensures Cut(a + [sep] + b, sep) == Some((a, b))
  {
    var s := a + [sep] + b;
    if a == [] {
      assert s == [sep] + b;
    } else {
      assert s[1..] == a[1..] + [sep] + b;
      CutAtFirst(a[1..], sep, b);
      assert [a[0]] + a[1..] == a;
    }
  }

  /** What Cut returns always splits the text at a first separator. */
  lemma {:induction false} CutSound(s: string, sep: char)
    ensures Cut(s, sep).None? <==> sep !in s
    ensures Cut(s, sep).Some? ==>
              var (a, b) := Cut(s, sep).value; sep !in a && s == a + [sep] + b
  {
    if s != [] && s[0] != sep {
      CutSound(s[1..], sep);
      assert s == [s[0]] + s[1..];
    }
  }

  // ---------------------------------------------------------------- digests

  predicate AlgoChar(c: char) {
    'a' <= c <= 'z' || '0' <= c <= '9' || c == '.' || c == '_' || c == '+' || c == '-'
  }

  predicate HexChar(c: char) { '0' <= c <= '9' || 'a' <= c <= 'f' }

  predicate ValidAlgo(s: string) { s != [] && forall c | c in s :: AlgoChar(c) }

  predicate ValidHex(s: string) { s != [] && forall c | c in s :: HexChar(c) }

  /** parseDigest: the lower-cased algorithm and hex parts of a digest. */
  function ParseDigest(digest: string): (r: Result<(string, string)>)
    ensures r.Success? ==> ValidAlgo(r.value.0) && ValidHex(r.value.1)
  {
    match Cut(TrimSpace(digest), ':')
    case None => Failure("expected format algorithm:hex")
    case Some(parts) =>
      var algo := ToLower(TrimSpace(parts.0));
      var hex := ToLower(TrimSpace(parts.1));
      if algo == [] || hex == [] then Failure("empty digest component")
      else if exists c | c in algo :: !AlgoChar(c) then Failure("invalid digest algorithm")
      else if exists c | c in hex :: !HexChar(c) then Failure("invalid digest hex")
      else Success((algo, hex))
  }

  /** splitDigest: the weaker split the push side uses; it keeps case and checks no characters. */
  function SplitDigest(digest: string): Option<(string, string)> {
    match Cut(TrimSpace(digest), ':')
    case None => None
    case Some(parts) =>
      var algo, hash := TrimSpace(parts.0), TrimSpace(parts.1);
      if algo == [] || hash == [] then None else Some((algo, hash))
  }

  /** A digest already written the way the mirror writes it to disk. */
  predicate Canonical(digest: string) {
    match ParseDigest(digest)
    case Success((algo, hex)) => digest == algo + ":" + hex
    case Failure(_) => false
  }

  lemma TrimNoSpace(s: string)
    requires s != [] ==> !IsSpace(s[0]) && !IsSpace(s[|s| - 1])
    ensures TrimSpace(s) == s
  {}

  /** A valid algorithm and hex part joined by a colon survive both readers unchanged. */
  lemma DigestRoundTrip(algo: string, hex: string)
    requires ValidAlgo(algo) && ValidHex(hex)
    ensures ParseDigest(algo + ":" + hex) == Success((algo, hex))
    ensures SplitDigest(algo + ":" + hex) == Some((algo, hex))
    ensures Canonical(algo + ":" + hex) && TrimSpace(algo + ":" + hex) == algo + ":" + hex
  {
    var d := algo + ":" + hex;
    assert d[0] == algo[0] && algo[0] in algo;
    assert d[|d| - 1] == hex[|hex| - 1] && hex[|hex| - 1] in hex;
    TrimNoSpace(d);
    assert !AlgoChar(':');
    CutAtFirst(algo, ':', hex);
    assert algo[|algo| - 1] in algo && hex[0] in hex;
    TrimNoSpace(algo);
    TrimNoSpace(hex);
    LowerFixed(algo);
    LowerFixed(hex);
  }

  lemma LowerFixed(s: string)
    requires forall c | c in s :: !('A' <= c <= 'Z')
    ensures ToLower(s) == s
  {
    forall i | 0 <= i < |s| ensures ToLower(s)[i] == s[i] { assert s[i] in s; }
  }

  /** Two texts are the same but for the case of their ASCII letters exactly when they are equal in lower case. */
  lemma CaseBlind(a: string, b: string)
    ensures ToLower(a) == ToLower(b)
       <==> |a| == |b| && forall i | 0 <= i < |a| ::
              || a[i] == b[i]
              || ('A' <= a[i] <= 'Z' && b[i] as int == a[i] as int + 32)
              || ('A' <= b[i] <= 'Z' && a[i] as int == b[i] as int + 32)
  {
    if ToLower(a) == ToLower(b) {
      forall i | 0 <= i < |a| ensures LowerChar(a[i]) == LowerChar(b[i]) {
        assert ToLower(a)[i] == ToLower(b)[i];
      }
    }
  }

  /** Blanks, tabs and line ends. */
  predicate Blank(s: string) { forall c | c in s :: c == ' ' || '\t' <= c <= '\r' }

  /** A text that begins and ends with a printable character. */
  predicate Bounded(s: string) { s != "" && ' ' < s[0] <= '~' && ' ' < s[|s| - 1] <= '~' }

  /** Blanks, tabs and line ends around a text are trimmed, and nothing else of printable ASCII text is. */
  lemma TrimPadded(before: string, s: string, after: string)
    requires Blank(before) && Blank(after) && Bounded(s)
    ensures TrimSpace(before + s + after) == s
  {
    TrimLeftPadded(before, s + after);
    assert before + s + after == before + (s + after);
    TrimRightPadded(s, after);
  }

  lemma {:induction false} TrimLeftPadded(before: string, s: string)
    requires Blank(before)
    requires s != "" && ' ' < s[0] <= '~'
    ensures TrimLeft(before + s) == s
  {
    if before == "" {
      assert before + s == s;
    } else {
      assert before[0] in before && (before + s)[1..] == before[1..] + s;
      assert forall c | c in before[1..] :: c in before;
      TrimLeftPadded(before[1..], s);
    }
  }

  lemma {:induction false} TrimRightPadded(s: string, after: string)
    requires Blank(after)
    requires s != "" && ' ' < s[|s| - 1] <= '~'
    ensures TrimRight(s + after) == s
  {
    if after == "" {
      assert s + after == s;
    } else {
      var n := |after| - 1;
      assert after[n] in after && (s + after)[..|s + after| - 1] == s + after[..n];
      assert forall c | c in after[..n] :: c in after;
      TrimRightPadded(s, after[..n]);
    }
  }

  lemma LowerAll(s: string, ok: char -> bool)
    ensures (forall c | c in ToLower(s) :: ok(c)) <==> forall c | c in s :: ok(LowerChar(c))
    ensures ToLower(s) == "" <==> s == ""
  {
    if forall c | c in ToLower(s) :: ok(c) {
      forall c | c in s ensures ok(LowerChar(c)) {
        var i :| 0 <= i < |s| && s[i] == c;
        assert ToLower(s)[i] in ToLower(s);
      }
    }
  }

  /** The letters of the two parts, before they are lowered. */
  lemma LowerLetters(algo: string, hex: string)
    ensures ToLower(algo) == "" <==> algo == ""
    ensures ToLower(hex) == "" <==> hex == ""
    ensures (forall c | c in ToLower(algo) :: AlgoChar(c)) <==> forall c | c in algo ::
              'a' <= c <= 'z' || 'A' <= c <= 'Z' || '0' <= c <= '9' || c == '.' || c == '_' || c == '+' || c == '-'
    ensures (forall c | c in ToLower(hex) :: HexChar(c)) <==> forall c | c in hex ::
              '0' <= c <= '9' || 'a' <= c <= 'f' || 'A' <= c <= 'F'
  {
    LowerAll(algo, AlgoChar);
    LowerAll(hex, HexChar);
    hide ToLower;
  }

  /** Which texts around a colon are a digest, on characters, and how it is read. */
  lemma DigestMeaning(before: string, algo: string, hex: string, after: string)
    requires Blank(before) && Blank(after) && forall c | c in algo + hex :: ' ' < c <= '~'
    requires ':' !in algo
    ensures ParseDigest(before + algo + ":" + hex + after).Success?
       <==> && algo != "" && hex != ""
            && (forall c | c in algo ::
                  'a' <= c <= 'z' || 'A' <= c <= 'Z' || '0' <= c <= '9' || c == '.' || c == '_' || c == '+' || c == '-')
            && (forall c | c in hex :: '0' <= c <= '9' || 'a' <= c <= 'f' || 'A' <= c <= 'F')
    ensures ParseDigest(before + algo + ":" + hex + after).Success? ==>
              ParseDigest(before + algo + ":" + hex + after) == Success((ToLower(algo), ToLower(hex)))
  {
    var d := algo + ":" + hex;
    assert d[0] == (if algo == "" then ':' else algo[0]);
    assert d[|d| - 1] == (if hex == "" then ':' else hex[|hex| - 1]);
    assert algo != "" ==> algo[0] in algo + hex && algo[|algo| - 1] in algo + hex;
    assert hex != "" ==> hex[0] in algo + hex && hex[|hex| - 1] in algo + hex;
    TrimPadded(before, d, after);
    assert before + algo + ":" + hex + after == before + d + after;
    CutAtFirst(algo, ':', hex);
    TrimNoSpace(algo);
    TrimNoSpace(hex);
    LowerLetters(algo, hex);
    hide TrimSpace, Cut, ToLower, AlgoChar, HexChar;
  }

  /** The trimmed parts around the first colon of a text. */
  predicate HasParts(s: string, algo: string, hash: string) {
    Cut(TrimSpace(s), ':').Some?
    && TrimSpace(Cut(TrimSpace(s), ':').value.0) == algo && TrimSpace(Cut(TrimSpace(s), ':').value.1) == hash
  }

  /** Blanks around the parts of a digest make no difference to either reader. */
  lemma SplitMeaning(before: string, algo: string, left: string, right: string, hash: string, after: string)
    requires Blank(before) && Blank(left) && Blank(right) && Blank(after)
    requires Bounded(algo) && Bounded(hash) && ':' !in algo
    ensures SplitDigest(before + (algo + left + ":" + right + hash) + after) == Some((algo, hash))
    ensures ParseDigest(before + (algo + left + ":" + right + hash) + after) == ParseDigest(algo + ":" + hash)
  {
    PaddedParts(before, algo, left, right, hash, after);
    PaddedParts("", algo, "", "", hash, "");
    assert "" + (algo + "" + ":" + "" + hash) + "" == algo + ":" + hash;
    hide TrimSpace, Cut, ToLower, AlgoChar, HexChar, Blank;
  }

  lemma PaddedParts(before: string, algo: string, left: string, right: string, hash: string, after: string)
    requires Blank(before) && Blank(left) && Blank(right) && Blank(after)
    requires Bounded(algo) && Bounded(hash) && ':' !in algo
    ensures HasParts(before + (algo + left + ":" + right + hash) + after, algo, hash)
  {
    var d := algo + left + ":" + right + hash;
    assert d[0] == algo[0] && d[|d| - 1] == hash[|hash| - 1];
    TrimPadded(before, d, after);
    TrimPadded("", algo, left);
    TrimPadded(right, hash, "");
    CutAtFirst(algo + left, ':', right + hash);
    hide TrimSpace, Cut;
    assert d == (algo + left) + [':'] + (right + hash);
    assert "" + algo + left == algo + left && right + hash + "" == right + hash;
  }

  /** On canonical digests the mirror's reader and the push side's reader agree, and both give the digest back. */
  lemma CanonicalReadersAgree(d: string)
    requires Canonical(d)
    ensures SplitDigest(d) == Some(ParseDigest(d).value) && TrimSpace(d) == d && d != []
  {
    var (algo, hex) := ParseDigest(d).value;
    DigestRoundTrip(algo, hex);
  }
}
