/** The key search finds a key's own value in any flat object, never text inside a
    string, and string values are decoded as they were written. */
module JsonLaws {
  import opened CStrings
  import opened Bytes
  import opened Json
  import opened Wrappers

  /** A character of a JSON string as it is written: itself, or after a backslash
      (section 7 of RFC 8259; \uXXXX is an escaped u and four plain characters). */
  datatype Unit = Plain(c: char) | Esc(c: char)

  datatype Value = Str(units: seq<Unit>) | Num(negative: bool, n: nat) | Bool(b: bool)

  /** A member with the blanks before and after its parts. */
  datatype Member = Member(w0: string, key: string, w1: string, w2: string, value: Value, w3: string)

  /** White space (section 2 of RFC 8259). */
  predicate White(c: char) {
    c == ' ' || c == '\t' || c == '\n' || c == '\r'
  }

  predicate Blanks(w: string) {
    forall i :: 0 <= i < |w| ==> White(w[i])
  }

  predicate KeyChar(c: char) {
    c != '"' && c != '\\' && c != ':' && c != ',' && c != '{' && c != '}' && !White(c)
  }

  /** A name without quotes, backslashes, blanks and punctuation, that fits the search buffer. */
  predicate IsKey(key: string) {
    0 < |key| <= 125 && forall i :: 0 <= i < |key| ==> KeyChar(key[i])
  }

  predicate LegalUnits(us: seq<Unit>) {
    forall i :: 0 <= i < |us| ==> us[i].Plain? ==> us[i].c != '"' && us[i].c != '\\'
  }

  predicate Legal(m: Member) {
    Blanks(m.w0) && Blanks(m.w1) && Blanks(m.w2) && Blanks(m.w3) && IsKey(m.key) &&
    (m.value.Str? ==> LegalUnits(m.value.units))
  }

  function UnitText(u: Unit): string {
    match u
    case Plain(c) => [c]
    case Esc(c) => ['\\', c]
  }

  function Body(us: seq<Unit>): string {
    if us == [] then "" else UnitText(us[0]) + Body(us[1..])
  }

  function ValueText(v: Value): string {
    match v
    case Str(us) => ['"'] + (Body(us) + ['"'])
    case Num(negative, n) => if negative then ['-'] + Decimal(n) else Decimal(n)
    case Bool(b) => if b then "true" else "false"
  }

  function KeyText(m: Member): string {
    m.w0 + (['"'] + m.key + ['"'] + (m.w1 + [':']))
  }

  function MemberText(m: Member): string {
    KeyText(m) + (m.w2 + (ValueText(m.value) + m.w3))
  }

  function Members(ms: seq<Member>): string {
    if ms == [] then ['}']
    else MemberText(ms[0]) + if |ms| == 1 then ['}'] else [','] + Members(ms[1..])
  }

  function ObjectText(ms: seq<Member>): string {
    ['{'] + Members(ms)
  }

  predicate AllLegal(ms: seq<Member>) {
    forall i :: 0 <= i < |ms| ==> Legal(ms[i])
  }

  /* ---------- where there is no hit ---------- */

  predicate NoHit(s: string, search: string, i: nat, j: nat) {
    forall p :: i <= p < j ==> !HitAt(s, p, search)
  }

  lemma {:induction false} NoHitSkips(s: string, search: string, i: nat, j: nat)
    requires i <= j <= |s| && NoHit(s, search, i, j)
    ensures FirstHit(s, search, i) == FirstHit(s, search, j)
    decreases j - i
  {
    if i < j {
      assert !HitAt(s, i, search);
      NoHitSkips(s, search, i + 1, j);
    }
  }

  /** A longer name is searched for without what does not fit the buffer of 128. */
  lemma LongSearch(key: string)
    requires |key| > 125
    ensures Search(key) == (['"'] + key + ['"'])[..127]
  {
  }

  lemma SearchIs(key: string)
    requires IsKey(key)
    ensures Search(key) == ['"'] + key + ['"'] && |Search(key)| == |key| + 2
  {
  }

  /** A name stands at `i`, with a quote after it. */
  predicate NameAt(s: string, i: nat, name: string) {
    i + |name| < |s| && s[i + |name|] == '"' && forall k :: 0 <= k < |name| ==> s[i + k] == name[k]
  }

  predicate AllKeyChars(name: string) {
    forall k :: 0 <= k < |name| ==> KeyChar(name[k])
  }

  lemma NameHead(s: string, i: nat, name: string)
    requires NameAt(s, i, name)
    ensures s[i] == if name == "" then '"' else name[0]
    ensures name != "" ==> NameAt(s, i + 1, name[1..])
  {
    if name != "" {
      assert s[i + 0] == name[0];
      forall k | 0 <= k < |name[1..]| ensures s[i + 1 + k] == name[1..][k] {
        assert s[i + (k + 1)] == name[k + 1];
      }
    }
  }

  lemma {:induction false} SameName(s: string, i: nat, a: string, b: string)
    requires NameAt(s, i, a) && NameAt(s, i, b) && AllKeyChars(a) && AllKeyChars(b)
    ensures a == b
    decreases |a|
  {
    NameHead(s, i, a);
    NameHead(s, i, b);
    if a != "" {
      SameName(s, i + 1, a[1..], b[1..]);
      assert a == [a[0]] + a[1..] && b == [b[0]] + b[1..];
    }
  }

  /** A quoted name that stands at `p` is a quote with the name after it. */
  lemma QuotedName(s: string, p: nat, name: string)
    requires At(s, p, ['"'] + name + ['"'])
    ensures p < |s| && s[p] == '"' && NameAt(s, p + 1, name)
  {
    var t := ['"'] + name + ['"'];
    assert forall k :: 0 <= k < |t| ==> s[p + k] == s[p..p + |t|][k] == t[k];
    assert s[p + 0] == t[0] && s[p + (|name| + 1)] == t[|name| + 1];
    forall k | 0 <= k < |name| ensures s[p + 1 + k] == name[k] {
      assert s[p + (k + 1)] == t[k + 1];
    }
  }

  /** A hit is a quote, the key and another quote. */
  lemma HitMeans(s: string, p: nat, key: string)
    requires IsKey(key) && At(s, p, Search(key))
    ensures p < |s| && s[p] == '"' && NameAt(s, p + 1, key) && AllKeyChars(key) && s[p + 1] == key[0]
  {
    SearchIs(key);
    QuotedName(s, p, key);
    NameHead(s, p + 1, key);
  }

  lemma NotAQuote(s: string, p: nat, key: string)
    requires IsKey(key) && p < |s| && s[p] != '"'
    ensures !HitAt(s, p, Search(key))
  {
    if At(s, p, Search(key)) {
      HitMeans(s, p, key);
    }
  }

  /** A quote that no character of a name follows begins no hit. */
  lemma NoNameFollows(s: string, p: nat, key: string)
    requires IsKey(key) && p + 1 < |s| && !KeyChar(s[p + 1])
    ensures !HitAt(s, p, Search(key))
  {
    if At(s, p, Search(key)) {
      HitMeans(s, p, key);
    }
  }

  /** Text without quotes holds no hit. */
  lemma QuoteFree(s: string, i: nat, t: string, key: string)
    requires IsKey(key) && At(s, i, t) && forall k :: 0 <= k < |t| ==> t[k] != '"'
    ensures NoHit(s, Search(key), i, i + |t|)
  {
    forall p | i <= p < i + |t| ensures !HitAt(s, p, Search(key)) {
      assert s[p] == s[i..i + |t|][p - i] == t[p - i];
      NotAQuote(s, p, key);
    }
  }

  /** Another name in quotes is no hit. */
  lemma OtherName(s: string, p: nat, name: string, key: string)
    requires IsKey(key) && IsKey(name) && At(s, p, ['"'] + name + ['"'])
    ensures At(s, p, Search(key)) <==> name == key
  {
    SearchIs(key);
    QuotedName(s, p, name);
    if At(s, p, Search(key)) {
      HitMeans(s, p, key);
      SameName(s, p + 1, name, key);
    }
  }

  /* ---------- strings ---------- */

  lemma BodyHead(s: string, i: nat, us: seq<Unit>)
    requires us != [] && At(s, i, Body(us) + ['"'])
    ensures var n := |UnitText(us[0])|;
            i + n < |s| && s[i + n - 1] == us[0].c && (us[0].Esc? ==> s[i] == '\\') &&
            At(s, i + n, Body(us[1..]) + ['"']) && |Body(us)| == n + |Body(us[1..])|
  {
    hide At;
    var rest := Body(us[1..]) + ['"'];
    Assoc(UnitText(us[0]), Body(us[1..]), ['"']);
    hide Body;
    UnitHead(s, i, us[0], rest);
  }

  lemma UnitHead(s: string, i: nat, u: Unit, rest: string)
    requires At(s, i, UnitText(u) + rest) && rest != ""
    ensures var n := |UnitText(u)|;
            i + n < |s| && s[i + n - 1] == u.c && (u.Esc? ==> s[i] == '\\') && At(s, i + n, rest)
  {
    hide At;
    if u.Esc? {
      assert ['\\', u.c] == ['\\'] + [u.c];
      Assoc(['\\'], [u.c], rest);
      AtHead(s, i, '\\', [u.c] + rest);
      AtHead(s, i + 1, u.c, rest);
    } else {
      AtHead(s, i, u.c, rest);
    }
    AtHeadOf(s, i + |UnitText(u)|, rest);
  }

  /** A name and a quote at the start of the rest of a string are all the rest of it. */
  lemma {:induction false} NameFillsBody(s: string, i: nat, us: seq<Unit>, name: string)
    requires LegalUnits(us) && At(s, i, Body(us) + ['"'])
    requires NameAt(s, i, name) && AllKeyChars(name)
    ensures |name| == |Body(us)|
    decreases |us|
  {
    NameHead(s, i, name);
    if us == [] {
      AtHeadOf(s, i, Body(us) + ['"']);
    } else {
      BodyHead(s, i, us);
      if name != "" && us[0].Plain? {
        NameFillsBody(s, i + 1, us[1..], name[1..]);
      }
    }
  }

  /** After a value come blanks and then a comma or the closing brace. */
  predicate ValueEnds(s: string, e: nat) {
    e < |s| && var k := SkipBlanks(s, e); k < |s| && (s[k] == ',' || s[k] == '}')
  }

  lemma ValueEndsFirst(s: string, e: nat)
    requires ValueEnds(s, e)
    ensures !KeyChar(s[e]) && s[e] != '"' && s[e] != ':'
  {
    assert !IsBlank(s[e]) ==> SkipBlanks(s, e) == e;
  }

  /** A quote with the rest of a string value after it begins no hit. */
  lemma QuoteInValue(s: string, p: nat, us: seq<Unit>, key: string)
    requires IsKey(key) && LegalUnits(us) && At(s, p + 1, Body(us) + ['"']) && ValueEnds(s, p + 1 + |Body(us)| + 1)
    ensures !HitAt(s, p, Search(key))
  {
    if At(s, p, Search(key)) {
      HitMeans(s, p, key);
      NameFillsBody(s, p + 1, us, key);
      SearchIs(key);
    }
  }

  lemma {:induction false} BodyHasNoHit(s: string, i: nat, us: seq<Unit>, key: string)
    requires IsKey(key) && LegalUnits(us) && At(s, i, Body(us) + ['"']) && ValueEnds(s, i + |Body(us)| + 1)
    ensures NoHit(s, Search(key), i, i + |Body(us)| + 1)
    decreases |us|
  {
    hide At, HitAt, Search, SkipBlanks, IsKey;
    if us == [] {
      AtHeadOf(s, i, Body(us) + ['"']);
      ValueEndsFirst(s, i + 1);
      NoNameFollows(s, i, key);
    } else {
      BodyHead(s, i, us);
      var n := |UnitText(us[0])|;
      BodyHasNoHit(s, i + n, us[1..], key);
      if us[0].Plain? || us[0].c != '"' {
        NotAQuote(s, i, key);
        NotAQuote(s, i + n - 1, key);
      } else {
        NotAQuote(s, i, key);
        QuoteInValue(s, i + 1, us[1..], key);
      }
    }
  }

  lemma StringHasNoHit(s: string, i: nat, us: seq<Unit>, key: string)
    requires IsKey(key) && LegalUnits(us) && At(s, i, ValueText(Str(us))) && ValueEnds(s, i + |ValueText(Str(us))|)
    ensures NoHit(s, Search(key), i, i + |ValueText(Str(us))|)
  {
    AtHead(s, i, '"', Body(us) + ['"']);
    BodyHasNoHit(s, i + 1, us, key);
    QuoteInValue(s, i, us, key);
  }

  /* ---------- members ---------- */

  lemma {:induction false} BlanksSkipped(s: string, i: nat, w: string)
    requires At(s, i, w) && Blanks(w)
    ensures SkipBlanks(s, i) == SkipBlanks(s, i + |w|)
    decreases |w|
  {
    if w != "" {
      assert w == [w[0]] + w[1..];
      AtHead(s, i, w[0], w[1..]);
      BlanksSkipped(s, i + 1, w[1..]);
    }
  }

  lemma BlanksHaveNoHit(s: string, i: nat, w: string, key: string)
    requires IsKey(key) && At(s, i, w) && Blanks(w)
    ensures NoHit(s, Search(key), i, i + |w|)
  {
    QuoteFree(s, i, w, key);
  }

  /** Where a member's name stands and where its value begins, counted from its start. */
  function NamePos(m: Member): nat {
    |m.w0|
  }

  function ValuePos(m: Member): nat {
    |m.w0| + |m.key| + 2 + |m.w1| + 1
  }

  lemma KeyStands(s: string, i: nat, m: Member)
    requires Legal(m) && At(s, i, KeyText(m))
    ensures |KeyText(m)| == ValuePos(m)
    ensures At(s, i, m.w0) && At(s, i + NamePos(m), ['"'] + m.key + ['"'])
    ensures At(s, i + NamePos(m) + |m.key| + 2, m.w1)
    ensures i + ValuePos(m) <= |s| && s[i + ValuePos(m) - 1] == ':'
  {
    hide At;
    var name := ['"'] + m.key + ['"'];
    AtSplit(s, i, m.w0, name + (m.w1 + [':']));
    AtSplit(s, i + |m.w0|, name, m.w1 + [':']);
    AtSplit(s, i + |m.w0| + |name|, m.w1, [':']);
    AtHead(s, i + ValuePos(m) - 1, ':', "");
  }

  /** The name of a member is a hit exactly when it is the key. */
  lemma NameHits(s: string, i: nat, m: Member, key: string)
    requires Legal(m) && IsKey(key) && At(s, i, KeyText(m))
    ensures HitAt(s, i + NamePos(m), Search(key)) <==> m.key == key
    ensures m.key == key ==> SkipBlanks(s, i + NamePos(m) + |Search(key)|) + 1 == i + ValuePos(m)
  {
    hide At;
    KeyStands(s, i, m);
    OtherName(s, i + NamePos(m), m.key, key);
    SearchIs(key);
    if m.key == key {
      BlanksSkipped(s, i + NamePos(m) + |m.key| + 2, m.w1);
      assert SkipBlanks(s, i + ValuePos(m) - 1) == i + ValuePos(m) - 1;
    }
  }

  /** Apart from its name the part of a member before its value holds no hit. */
  lemma KeyPartHasNoHit(s: string, i: nat, m: Member, key: string)
    requires Legal(m) && IsKey(key) && At(s, i, KeyText(m))
    ensures NoHit(s, Search(key), i, i + NamePos(m))
    ensures NoHit(s, Search(key), i + NamePos(m) + 1, i + ValuePos(m))
  {
    hide At, HitAt, Search, SkipBlanks;
    KeyStands(s, i, m);
    BlanksHaveNoHit(s, i, m.w0, key);
    var q := i + NamePos(m);
    QuotedName(s, q, m.key);
    forall p | q + 1 <= p < q + 1 + |m.key| ensures !HitAt(s, p, Search(key)) {
      assert s[q + 1 + (p - q - 1)] == m.key[p - q - 1];
      NotAQuote(s, p, key);
    }
    AfterName(s, q + |m.key| + 1, m.w1);
    NoNameFollows(s, q + |m.key| + 1, key);
    BlanksHaveNoHit(s, q + |m.key| + 2, m.w1, key);
    NotAQuote(s, i + ValuePos(m) - 1, key);
  }

  /** A blank or a colon follows the name. */
  lemma AfterName(s: string, e: nat, w: string)
    requires At(s, e + 1, w) && Blanks(w) && e + 1 + |w| < |s| && s[e + 1 + |w|] == ':'
    ensures !KeyChar(s[e + 1])
  {
    if w != "" {
      AtHeadOf(s, e + 1, w);
    }
  }

  lemma ValueHasNoHit(s: string, i: nat, v: Value, key: string)
    requires IsKey(key) && (v.Str? ==> LegalUnits(v.units)) && At(s, i, ValueText(v)) &&
             ValueEnds(s, i + |ValueText(v)|)
    ensures NoHit(s, Search(key), i, i + |ValueText(v)|)
  {
    hide At;
    if v.Str? {
      StringHasNoHit(s, i, v.units, key);
    } else {
      QuoteFree(s, i, ValueText(v), key);
    }
  }

  lemma RestStands(s: string, i: nat, m: Member)
    requires Legal(m) && At(s, i, MemberText(m))
    ensures At(s, i, KeyText(m)) && |KeyText(m)| == ValuePos(m)
    ensures var v := i + ValuePos(m) + |m.w2|;
            At(s, i + ValuePos(m), m.w2) && At(s, v, ValueText(m.value)) &&
            At(s, v + |ValueText(m.value)|, m.w3) && i + |MemberText(m)| == v + |ValueText(m.value)| + |m.w3|
  {
    hide At, ValueText;
    AtSplit(s, i, KeyText(m), m.w2 + (ValueText(m.value) + m.w3));
    KeyStands(s, i, m);
    AtSplit(s, i + ValuePos(m), m.w2, ValueText(m.value) + m.w3);
    AtSplit(s, i + ValuePos(m) + |m.w2|, ValueText(m.value), m.w3);
  }

  /** After a member comes a comma or the closing brace. */
  predicate MemberEnds(s: string, e: nat) {
    e < |s| && (s[e] == ',' || s[e] == '}')
  }

  lemma EndsAfterBlanks(s: string, e: nat, w: string)
    requires At(s, e, w) && Blanks(w) && MemberEnds(s, e + |w|)
    ensures ValueEnds(s, e)
  {
    BlanksSkipped(s, e, w);
    assert SkipBlanks(s, e + |w|) == e + |w|;
    if w != "" {
      AtHeadOf(s, e, w);
    }
  }

  lemma MemberHits(s: string, i: nat, m: Member, key: string)
    requires Legal(m) && IsKey(key) && At(s, i, MemberText(m)) && MemberEnds(s, i + |MemberText(m)|)
    ensures NoHit(s, Search(key), i, i + NamePos(m))
    ensures m.key != key ==> NoHit(s, Search(key), i, i + |MemberText(m)|)
  {
    hide At, HitAt, Search, SkipBlanks, ValueText, MemberText, KeyText, ValueEnds, MemberEnds, IsKey;
    RestStands(s, i, m);
    var v := i + ValuePos(m) + |m.w2|;
    var e := v + |ValueText(m.value)|;
    KeyPartHasNoHit(s, i, m, key);
    NameHits(s, i, m, key);
    BlanksHaveNoHit(s, i + ValuePos(m), m.w2, key);
    EndsAfterBlanks(s, e, m.w3);
    ValueHasNoHit(s, v, m.value, key);
    BlanksHaveNoHit(s, e, m.w3, key);
  }

  /* ---------- objects ---------- */

  /** How many characters the first `k` members and their commas take. */
  function Offset(ms: seq<Member>, k: nat): nat
    requires k <= |ms|
  {
    if k == 0 then 0 else |MemberText(ms[0])| + 1 + Offset(ms[1..], k - 1)
  }

  lemma MembersHead(s: string, i: nat, ms: seq<Member>)
    requires ms != [] && At(s, i, Members(ms))
    ensures At(s, i, MemberText(ms[0])) && MemberEnds(s, i + |MemberText(ms[0])|)
    ensures |ms| > 1 ==> At(s, i + |MemberText(ms[0])| + 1, Members(ms[1..]))
    ensures |Members(ms)| == |MemberText(ms[0])| + 1 + if |ms| == 1 then 0 else |Members(ms[1..])|
  {
    hide At, MemberText;
    var rest := if |ms| == 1 then ['}'] else [','] + Members(ms[1..]);
    assert Members(ms) == MemberText(ms[0]) + rest;
    AtSplit(s, i, MemberText(ms[0]), rest);
    hide Members;
    if |ms| == 1 {
      assert rest == ['}'] + "";
      AtHead(s, i + |MemberText(ms[0])|, '}', "");
    } else {
      AtHead(s, i + |MemberText(ms[0])|, ',', Members(ms[1..]));
    }
  }

  /** The search stops at the first member that has the key, at its name. */
  lemma {:induction false} SearchStops(s: string, i: nat, ms: seq<Member>, k: nat, key: string)
    requires IsKey(key) && AllLegal(ms) && At(s, i, Members(ms)) && k < |ms| && ms[k].key == key
    requires forall j :: 0 <= j < k ==> ms[j].key != key
    ensures var m := i + Offset(ms, k);
            m + |MemberText(ms[k])| < |s| && At(s, m, MemberText(ms[k])) && MemberEnds(s, m + |MemberText(ms[k])|) &&
            FirstHit(s, Search(key), i) == m + NamePos(ms[k])
    decreases k
  {
    hide At, HitAt, Search, Members, MemberText, KeyText;
    MembersHead(s, i, ms);
    MemberHits(s, i, ms[0], key);
    if k == 0 {
      HitStops(s, i, ms[0], key);
    } else {
      var e := i + |MemberText(ms[0])|;
      NotAQuote(s, e, key);
      NoHitSkips(s, Search(key), i, e + 1);
      SearchStops(s, e + 1, ms[1..], k - 1, key);
    }
  }

  lemma HitStops(s: string, i: nat, m: Member, key: string)
    requires IsKey(key) && Legal(m) && m.key == key && At(s, i, MemberText(m)) &&
             NoHit(s, Search(key), i, i + NamePos(m))
    ensures FirstHit(s, Search(key), i) == i + NamePos(m)
  {
    hide At, MemberText, KeyText, HitAt, Search;
    RestStands(s, i, m);
    KeyStands(s, i, m);
    QuotedName(s, i + NamePos(m), m.key);
    NameHits(s, i, m, key);
    NoHitSkips(s, Search(key), i, i + NamePos(m));
  }

  /** In an object json_find_key lands just after the colon of the first member that
      has the key, whatever the strings before and after it hold. */
  lemma FindsOwnValue(ms: seq<Member>, k: nat)
    requires AllLegal(ms) && k < |ms|
    requires forall j :: 0 <= j < k ==> ms[j].key != ms[k].key
    ensures var s, m := ObjectText(ms), 1 + Offset(ms, k);
            ValueOf(s, ms[k].key) == m + ValuePos(ms[k]) && At(s, m, MemberText(ms[k])) &&
            MemberEnds(s, m + |MemberText(ms[k])|)
  {
    hide At, HitAt, Search, Members, MemberText, KeyText, ObjectText, FirstHit, SkipBlanks, MemberEnds, Offset, NoHit,
      ValuePos, NamePos;
    var s, key := ObjectText(ms), ms[k].key;
    ObjectStands(ms);
    NotAQuote(s, 0, key);
    SearchStops(s, 1, ms, k, key);
    NoHitSkips(s, Search(key), 0, 1);
    var m := 1 + Offset(ms, k);
    assert Legal(ms[k]);
    RestStands(s, m, ms[k]);
    NameHits(s, m, ms[k], key);
  }

  lemma ObjectStands(ms: seq<Member>)
    ensures var s := ObjectText(ms); |s| == 1 + |Members(ms)| && s[0] == '{' && At(s, 1, Members(ms))
  {
    var s := ObjectText(ms);
    assert s[0..|s|] == s;
    AtHead(s, 0, '{', Members(ms));
  }

  lemma {:induction false} SearchFails(s: string, i: nat, ms: seq<Member>, key: string)
    requires IsKey(key) && AllLegal(ms) && At(s, i, Members(ms)) && i + |Members(ms)| == |s| && ms != []
    requires forall j :: 0 <= j < |ms| ==> ms[j].key != key
    ensures NoHit(s, Search(key), i, |s|)
    decreases |ms|
  {
    hide At, HitAt, Search, Members, MemberText, KeyText;
    MembersHead(s, i, ms);
    MemberHits(s, i, ms[0], key);
    var e := i + |MemberText(ms[0])|;
    NotAQuote(s, e, key);
    if |ms| > 1 {
      SearchFails(s, e + 1, ms[1..], key);
    }
  }

  /** A key that no member has is not found, even if a string value holds it in quotes. */
  lemma AbsentKeyIsNotFound(ms: seq<Member>, key: string)
    requires IsKey(key) && AllLegal(ms) && ms != []
    requires forall j :: 0 <= j < |ms| ==> ms[j].key != key
    ensures ValueOf(ObjectText(ms), key) == |ObjectText(ms)| + 1
  {
    hide At, Members, ObjectText;
    var s := ObjectText(ms);
    ObjectStands(ms);
    SearchFails(s, 1, ms, key);
    NotAQuote(s, 0, key);
    NoHitSkips(s, Search(key), 0, |s|);
    SearchIs(key);
    assert !HitAt(s, |s|, Search(key));
  }

  /* ---------- values ---------- */

  /** The string that a written string stands for, as json_str reads it. */
  function Decoded(us: seq<Unit>): string {
    if us == [] then ""
    else [if us[0].Esc? then Unescaped(us[0].c) else us[0].c] + Decoded(us[1..])
  }

  lemma {:induction false} BodyDecodes(s: string, i: nat, us: seq<Unit>)
    requires LegalUnits(us) && At(s, i, Body(us) + ['"'])
    ensures DecodeFrom(s, i) == Decoded(us)
    decreases |us|
  {
    hide At;
    if us == [] {
      AtHeadOf(s, i, Body(us) + ['"']);
    } else {
      BodyHead(s, i, us);
      BodyDecodes(s, i + |UnitText(us[0])|, us[1..]);
    }
  }

  /** A value as json_int sees it. */
  function Signed(v: Value): int
    requires v.Num?
  {
    if v.negative then -(v.n as int) else v.n
  }

  /** Where the value of the `k`-th member stands: after the colon json_find_key
      lands on and some blanks. */
  function ValueStart(ms: seq<Member>, k: nat): nat
    requires k < |ms|
  {
    1 + Offset(ms, k) + ValuePos(ms[k]) + |ms[k].w2|
  }

  lemma ValueStands(ms: seq<Member>, k: nat)
    requires AllLegal(ms) && k < |ms|
    requires forall j :: 0 <= j < k ==> ms[j].key != ms[k].key
    ensures var s, p, t := ObjectText(ms), ValueStart(ms, k), ValueText(ms[k].value);
            ValueOf(s, ms[k].key) <= |s| && p <= |s| &&
            SkipBlanks(s, ValueOf(s, ms[k].key)) == SkipBlanks(s, p) && At(s, p, t) && ValueEnds(s, p + |t|)
  {
    hide At, MemberText, ObjectText, ValueOf, ValueText, SkipBlanks, ValueEnds, MemberEnds, Legal, HitAt;
    FindsOwnValue(ms, k);
    var s, m := ObjectText(ms), 1 + Offset(ms, k);
    assert Legal(ms[k]);
    MemberStands(s, m, ms[k]);
  }

  lemma MemberStands(s: string, m: nat, x: Member)
    requires Legal(x) && At(s, m, MemberText(x)) && MemberEnds(s, m + |MemberText(x)|)
    ensures var p, t := m + ValuePos(x) + |x.w2|, ValueText(x.value);
            p <= |s| && SkipBlanks(s, m + ValuePos(x)) == SkipBlanks(s, p) && At(s, p, t) && ValueEnds(s, p + |t|)
  {
    hide At, MemberText, ValueText, SkipBlanks, ValueEnds, MemberEnds;
    RestStands(s, m, x);
    BlanksSkipped(s, m + ValuePos(x), x.w2);
    EndsAfterBlanks(s, m + ValuePos(x) + |x.w2| + |ValueText(x.value)|, x.w3);
  }

  lemma StringIsRead(ms: seq<Member>, k: nat)
    requires AllLegal(ms) && k < |ms| && ms[k].value.Str?
    requires forall j :: 0 <= j < k ==> ms[j].key != ms[k].key
    ensures StringAt(ObjectText(ms), ValueOf(ObjectText(ms), ms[k].key)) == Some(Decoded(ms[k].value.units))
  {
    hide At, ObjectText, ValueOf, Decoded, ValueStart, ValueEnds, DecodeFrom, Body;
    ValueStands(ms, k);
    var s, p, us := ObjectText(ms), ValueStart(ms, k), ms[k].value.units;
    assert Legal(ms[k]);
    AtHead(s, p, '"', Body(us) + ['"']);
    BodyDecodes(s, p + 1, us);
  }

  lemma IntIsRead(ms: seq<Member>, k: nat)
    requires AllLegal(ms) && k < |ms| && ms[k].value.Num?
    requires forall j :: 0 <= j < k ==> ms[j].key != ms[k].key
    ensures IntAt(ObjectText(ms), ValueOf(ObjectText(ms), ms[k].key)) == Some(Signed(ms[k].value))
  {
    hide At, ObjectText, ValueOf, ValueStart, ValueEnds, ValueText, Atoi, Signed, SkipBlanks;
    ValueStands(ms, k);
    NumberIsRead(ObjectText(ms), ValueStart(ms, k), ms[k].value);
  }

  lemma TextThenRest(s: string, p: nat, t: string)
    requires At(s, p, t) && p + |t| < |s|
    ensures s[p..] == t + s[p + |t|..] && s[p + |t|..] != "" && s[p + |t|..][0] == s[p + |t|]
  {
    assert s[p..] == s[p..p + |t|] + s[p + |t|..];
  }

  lemma NumberStarts(v: Value)
    requires v.Num?
    ensures ValueText(v) != "" && (IsDigit(ValueText(v)[0]) || ValueText(v)[0] == '-')
  {
    assert |Decimal(v.n)| >= 1 && IsDigit(Decimal(v.n)[0]);
  }

  lemma NumberIsRead(s: string, p: nat, v: Value)
    requires v.Num? && At(s, p, ValueText(v)) && ValueEnds(s, p + |ValueText(v)|)
    ensures SkipBlanks(s, p) == p < |s| && (IsDigit(s[p]) || s[p] == '-')
    ensures Atoi(s[p..]) == Signed(v)
  {
    hide Decimal, Atoi, At, ValueEnds;
    NumberStarts(v);
    AtHeadOf(s, p, ValueText(v));
    EndIsNoDigit(s, p + |ValueText(v)|);
    TextThenRest(s, p, ValueText(v));
    var rest := s[p + |ValueText(v)|..];
    if v.negative {
      Assoc(['-'], Decimal(v.n), rest);
      AtoiNegative(v.n, rest);
    } else {
      AtoiDecimal(v.n, rest);
    }
  }

  lemma EndIsNoDigit(s: string, e: nat)
    requires ValueEnds(s, e)
    ensures e < |s| && !IsDigit(s[e])
  {
    assert !IsBlank(s[e]) ==> SkipBlanks(s, e) == e;
  }

  lemma AtoiNegative(n: nat, rest: string)
    requires rest != "" && !IsDigit(rest[0])
    ensures Atoi(['-'] + (Decimal(n) + rest)) == -(n as int)
  {
    hide Decimal;
    var u := Decimal(n) + rest;
    var s := ['-'] + u;
    assert SkipSpaces(s, 0) == 0 && s[0..] == s && s[1..] == u;
    DigitRunOf(n, rest);
    NumberOfDecimal(n);
  }

  lemma DigitRunOf(n: nat, rest: string)
    requires rest != "" && !IsDigit(rest[0])
    ensures DigitRun(Decimal(n) + rest) == |Decimal(n)| && (Decimal(n) + rest)[..|Decimal(n)|] == Decimal(n)
  {
    hide Decimal;
    var d := Decimal(n);
    var s := d + rest;
    assert forall i :: 0 <= i < |d| ==> s[i] == d[i];
    assert s[|d|] == rest[0];
  }

  lemma BoolIsRead(ms: seq<Member>, k: nat)
    requires AllLegal(ms) && k < |ms| && ms[k].value.Bool?
    requires forall j :: 0 <= j < k ==> ms[j].key != ms[k].key
    ensures BoolAt(ObjectText(ms), ValueOf(ObjectText(ms), ms[k].key)) == Some(ms[k].value.b)
  {
    hide At, ObjectText, ValueOf, ValueStart, ValueEnds, ValueText, SkipBlanks;
    ValueStands(ms, k);
    BoolStands(ObjectText(ms), ValueStart(ms, k), ms[k].value.b);
  }

  lemma BoolStands(s: string, p: nat, b: bool)
    requires At(s, p, ValueText(Bool(b)))
    ensures p <= |s| && SkipBlanks(s, p) == p && (At(s, p, "true") <==> b) && (At(s, p, "false") <==> !b)
  {
    AtHeadOf(s, p, ValueText(Bool(b)));
    if At(s, p, "true") {
      AtHeadOf(s, p, "true");
    }
    if At(s, p, "false") {
      AtHeadOf(s, p, "false");
    }
  }

  /* ---------- json_str undoes json_escape ---------- */

  /** What json_escape writes, character by character. */
  function EscapedUnits(s: string): seq<Unit> {
    if s == "" then []
    else
      var c, rest := s[0], EscapedUnits(s[1..]);
      if c == '"' || c == '\\' then [Esc(c)] + rest
      else if c == '\n' then [Esc('n')] + rest
      else if c == '\r' then [Esc('r')] + rest
      else if c == '\t' then [Esc('t')] + rest
      else if c >= ' ' then [Plain(c)] + rest
      else rest
  }

  /** What comes back: a carriage return as the letter r, and no other control
      characters than line feeds and tabs. */
  function Kept(s: string): string {
    if s == "" then ""
    else if s[0] == '\r' then ['r'] + Kept(s[1..])
    else if s[0] >= ' ' || s[0] == '\n' || s[0] == '\t' then [s[0]] + Kept(s[1..])
    else Kept(s[1..])
  }

  /** No control characters but line feeds and tabs. */
  predicate Clean(s: string) {
    forall i :: 0 <= i < |s| ==> s[i] >= ' ' || s[i] == '\n' || s[i] == '\t'
  }

  lemma {:induction false} EscapedIsBody(s: string)
    ensures Body(EscapedUnits(s)) == EscapedBody(s) && LegalUnits(EscapedUnits(s)) &&
            Decoded(EscapedUnits(s)) == Kept(s)
  {
    hide Body, Decoded, LegalUnits;
    if s == "" {
      NoUnits();
    } else {
      EscapedIsBody(s[1..]);
      var c, rest := s[0], EscapedUnits(s[1..]);
      if c == '"' || c == '\\' {
        UnitFirst(Esc(c), rest);
      } else if c == '\n' {
        UnitFirst(Esc('n'), rest);
      } else if c == '\r' {
        UnitFirst(Esc('r'), rest);
      } else if c == '\t' {
        UnitFirst(Esc('t'), rest);
      } else if c >= ' ' {
        UnitFirst(Plain(c), rest);
      }
    }
  }

  lemma NoUnits()
    ensures Body([]) == "" && Decoded([]) == "" && LegalUnits([])
  {
  }

  lemma UnitFirst(u: Unit, rest: seq<Unit>)
    requires LegalUnits(rest) && (u.Plain? ==> u.c != '"' && u.c != '\\')
    ensures Body([u] + rest) == UnitText(u) + Body(rest) && LegalUnits([u] + rest)
    ensures Decoded([u] + rest) == [if u.Esc? then Unescaped(u.c) else u.c] + Decoded(rest)
  {
    assert ([u] + rest)[1..] == rest;
  }

  lemma {:induction false} KeptIff(s: string)
    ensures |Kept(s)| <= |s| && (Kept(s) == s <==> Clean(s))
  {
    if s != "" {
      KeptIff(s[1..]);
      assert s == [s[0]] + s[1..];
      assert Kept(s) == s && |Kept(s)| == |s| ==> Kept(s)[0] == s[0] && Kept(s)[1..] == s[1..];
      assert Clean(s) <==> (s[0] >= ' ' || s[0] == '\n' || s[0] == '\t') && Clean(s[1..]);
    }
  }

  /** A string written by json_escape under a key of its own is read back with each
      carriage return as the letter r and without other control characters but line feeds
      and tabs, and so exactly when these two are the only ones it has. */
  lemma EscapeComesBack(ms: seq<Member>, k: nat, text: string)
    requires AllLegal(ms) && k < |ms| && ms[k].value == Str(EscapedUnits(text))
    requires forall j :: 0 <= j < k ==> ms[j].key != ms[k].key
    ensures ValueText(ms[k].value) == ['"'] + EscapedBody(text) + ['"']
    ensures var r := StringAt(ObjectText(ms), ValueOf(ObjectText(ms), ms[k].key));
            r == Some(Kept(text)) && (r.value == text <==> Clean(text))
  {
    hide ObjectText, ValueOf, StringAt, Decoded, EscapedUnits, Kept;
    StringIsRead(ms, k);
    EscapedIsBody(text);
    KeptIff(text);
  }

  /** A carriage return comes back as the letter r. */
  lemma ReturnComesBackAsR(ms: seq<Member>, k: nat)
    requires AllLegal(ms) && k < |ms| && ms[k].value == Str(EscapedUnits(['\r']))
    requires forall j :: 0 <= j < k ==> ms[j].key != ms[k].key
    ensures StringAt(ObjectText(ms), ValueOf(ObjectText(ms), ms[k].key)) == Some(['r'])
  {
    hide ObjectText, ValueOf, StringAt, EscapedUnits;
    EscapeComesBack(ms, k, ['\r']);
    assert ['\r'][1..] == "" && Kept("") == "";
    assert Kept(['\r']) == ['r'];
  }
}
