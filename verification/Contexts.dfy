/** String contexts as the evaluation cache stores them: elements joined by blanks when
    a row is written, and cut at semicolons when it is read. */
module Contexts {
  import opened Options

  const HASH_PART_LEN := 32
  const MAX_PATH_LEN := 211

  predicate IsHashChar(c: char) {
    ('0' <= c <= '9' || 'a' <= c <= 'z') && c != 'e' && c != 'o' && c != 'u' && c != 't'
  }

  predicate IsNameChar(c: char) {
    '0' <= c <= '9' || 'a' <= c <= 'z' || 'A' <= c <= 'Z' || c in "+-._?="
  }

  /** `checkName`: the first part between dashes is neither `.` nor `..`. */
  predicate IsName(name: string) {
    && 0 < |name| <= MAX_PATH_LEN
    && !(name[0] == '.' && (|name| == 1 || name[1] == '-'))
    && !(|name| > 1 && name[0] == name[1] == '.' && (|name| == 2 || name[2] == '-'))
    && forall i :: 0 <= i < |name| ==> IsNameChar(name[i])
  }

  /** The constructor of `StorePath`; nothing is asked of the character between hash and
      name. */
  predicate IsStorePath(s: string) {
    && |s| > HASH_PART_LEN
    && (forall i :: 0 <= i < HASH_PART_LEN ==> IsHashChar(s[i]))
    && IsName(s[HASH_PART_LEN + 1..])
  }

  /** The position of the first `c`, or the length. */
  function Find(s: string, c: char): (k: nat)
    ensures k <= |s| && (k < |s| ==> s[k] == c)
    ensures forall i :: 0 <= i < k ==> s[i] != c
  {
    if s == [] || s[0] == c then 0 else 1 + Find(s[1..], c)
  }

  /** `NixStringContextElem::parse` succeeds. */
  predicate Parses(e: string) {
    e != "" &&
    if e[0] == '!' then
      var k := 1 + Find(e[1..], '!');
      k < |e| && IsStorePath(e[k + 1..])
    else if e[0] == '=' then IsStorePath(e[1..])
    else '!' !in e && IsStorePath(e)
  }

  /** What the elements of a value's context are. */
  type Element = e: string | Parses(e) witness (DummyParses(); DUMMY)

  const DUMMY := "ffffffffffffffffffffffffffffffff-x"

  lemma DummyParses()
    ensures Parses(DUMMY)
  {
    assert |DUMMY| == 34 && DUMMY[33..] == "x";
    assert forall i :: 0 <= i < 32 ==> DUMMY[i] == 'f';
  }

  /** The base-32 digits of a hash are the digits and lower-case letters without e, o, t, u. */
  lemma HashDigits(c: char)
    ensures IsHashChar(c) <==> c in "0123456789abcdfghijklmnpqrsvwxyz"
  {
  }

  /** A name has at most 211 letters, digits and signs, and does not begin with a dot or two
      that a dash or the end follows. */
  lemma NameMeans(name: string)
    ensures IsName(name) <==>
      && name != "" && |name| <= 211 && name != "." && name != ".." && !(".-" <= name) && !("..-" <= name)
      && forall i :: 0 <= i < |name| ==> IsNameChar(name[i])
  {
  }

  // --- writing and reading a row ---

  function Join(context: seq<Element>): string
    requires context != []
  {
    if |context| == 1 then context[0] else context[0] + " " + Join(context[1..])
  }

  /** The column `setString` writes; null for a string without context. */
  function Column(context: seq<Element>): Option<string> {
    if context == [] then None else Some(Join(context))
  }

  /** `tokenizeString` with the separator `;`. */
  function Tokens(s: string): seq<string> {
    if s == [] then []
    else if s[0] == ';' then Tokens(s[1..])
    else var k := Find(s, ';'); [s[..k]] + Tokens(s[k..])
  }

  function ElementsOf(context: seq<string>): set<string> {
    set e | e in context
  }

  /** What `getAttr` makes of the column: an error if a token does not parse. */
  function ReadColumn(column: Option<string>): Option<set<string>> {
    if column.None? then Some({})
    else
      var tokens := Tokens(column.value);
      if forall t :: t in tokens ==> Parses(t) then Some(ElementsOf(tokens)) else None
  }

  predicate Readable(context: seq<Element>) {
    context == [] || (|context| == 1 && ';' !in context[0])
  }

  // --- why longer contexts cannot be read ---

  lemma StorePathThenBlank(p: string, t: string)
    requires IsStorePath(p)
    ensures !IsStorePath(p + " " + t)
  {
    var s := p + " " + t;
    assert s[|p|] == ' ' && |p| > HASH_PART_LEN + 1;
    assert s[HASH_PART_LEN + 1..][|p| - HASH_PART_LEN - 1] == ' ';
  }

  lemma StorePathCut(p: string, k: nat)
    requires IsStorePath(p) && k < |p| && p[k] == ';'
    ensures !IsStorePath(p[..k])
  {
    var name := p[HASH_PART_LEN + 1..];
    assert forall i :: HASH_PART_LEN < i < |p| ==> p[i] == name[i - HASH_PART_LEN - 1];
  }

  lemma {:induction false} FindIs(s: string, c: char, k: nat)
    requires k < |s| && s[k] == c && forall i :: 0 <= i < k ==> s[i] != c
    ensures Find(s, c) == k
  {
  }

  lemma ElementThenBlank(e: Element, t: string)
    ensures !Parses(e + " " + t)
  {
    var s := e + " " + t;
    if e[0] == '!' {
      var k := 1 + Find(e[1..], '!');
      assert s[1..] == e[1..] + (" " + t);
      FindIs(s[1..], '!', k - 1);
      assert s[k + 1..] == e[k + 1..] + " " + t;
      StorePathThenBlank(e[k + 1..], t);
    } else if e[0] == '=' {
      assert s[1..] == e[1..] + " " + t;
      StorePathThenBlank(e[1..], t);
    } else {
      StorePathThenBlank(e, t);
    }
  }

  lemma ElementCut(e: Element, k: nat)
    requires k < |e| && e[k] == ';'
    ensures k > 0 && !Parses(e[..k])
  {
    var s := e[..k];
    if e[0] == '!' {
      var m := 1 + Find(e[1..], '!');
      if k > m {
        assert s[1..] == e[1..k];
        FindIs(s[1..], '!', m - 1);
        assert s[m + 1..] == e[m + 1..][..k - m - 1];
        StorePathCut(e[m + 1..], k - m - 1);
      } else {
        assert forall i :: 0 <= i < |s[1..]| ==> s[1..][i] == e[1..][i];
      }
    } else if e[0] == '=' {
      assert s[1..] == e[1..][..k - 1];
      StorePathCut(e[1..], k - 1);
    } else {
      StorePathCut(e, k);
    }
  }

  /** The first token of a joined context: cut short by a semicolon in the first element, or
      running on into the second element. */
  lemma FirstToken(context: seq<Element>)
    requires context != []
    ensures var c := Join(context);
      && c != [] && c[0] != ';' && Find(c, ';') > 0
      && (Parses(c[..Find(c, ';')]) <==> Readable(context))
  {
    var e, c := context[0], Join(context);
    var k := Find(c, ';');
    assert e[0] != ';' by { if e[0] == ';' { ElementCut(e, 0); } }
    assert c[..|e|] == e;
    if k < |e| {
      assert e[k] == ';' && c[..k] == e[..k];
      ElementCut(e, k);
    } else if |context| == 1 {
      assert ';' !in e;
      assert c[..k] == e;
    } else {
      var rest := Join(context[1..]);
      assert k > |e|;
      assert c[..k] == e + " " + rest[..k - |e| - 1];
      ElementThenBlank(e, rest[..k - |e| - 1]);
    }
  }

  /** A context is read back as it was written exactly when it has at most one element, and
      that without a semicolon; any other context cannot be read at all. */
  lemma ContextReadBack(context: seq<Element>)
    ensures ReadColumn(Column(context)) == if Readable(context) then Some(ElementsOf(context)) else None
  {
    if context == [] {
      assert ElementsOf(context) == {};
    } else {
      FirstToken(context);
      var c := Join(context);
      var k := Find(c, ';');
      assert Tokens(c) == [c[..k]] + Tokens(c[k..]);
      if Readable(context) {
        assert k == |c| && c[..k] == c && c[k..] == [];
        assert Tokens(c) == [c] && [c] == context;
      } else {
        assert c[..k] in Tokens(c);
      }
    }
  }

  lemma DeepDummyParses()
    ensures Parses("=" + DUMMY)
  {
    DummyParses();
    assert ("=" + DUMMY)[1..] == DUMMY;
    hide IsStorePath;
  }

  /** The context of a plain path and of a derivation with everything behind it. */
  lemma TwoElementsUnreadable()
    ensures Parses(DUMMY) && Parses("=" + DUMMY)
    ensures ReadColumn(Column([DUMMY, "=" + DUMMY])) == None
  {
    hide Parses, ReadColumn, Column;
    DummyParses();
    DeepDummyParses();
    ContextReadBack([DUMMY, "=" + DUMMY]);
  }
}
