/** Usage events, the hour buckets they are folded into, and the string that names a bucket. */
module TelemetryKey {
  import opened Prelude
  import opened Texts

  /** The text of an event, feature, tab, view or category name. */
  datatype Name = Name(text: string)

  datatype UsageEvent = UsageEvent(
    id: Name,
    eventName: Name,
    featureKey: Name,
    timestamp: int,
    offsetMinutes: int,
    tabName: Option<Name>,
    viewName: Option<Name>,
    categoryIds: seq<Name>,
    taskIdPolicyField: Option<Name>,
    metadata: map<Name, Name>,
    userScopeKey: Name)

  /** A day is its number since 1970. */
  datatype Bucket = Bucket(
    day: int,
    hour: int,
    eventName: Name,
    featureKey: Name,
    tabName: Option<Name>,
    viewName: Option<Name>,
    categoryIds: seq<Name>,
    count: int,
    userScopeKey: Name)

  /** What the readers of the log look at. */
  datatype Tag = Tag(day: int, hour: int, eventName: Name, featureKey: Name, categoryIds: seq<Name>)

  function LocalSeconds(timestamp: int, offsetMinutes: int): int {
    timestamp + offsetMinutes * 60
  }

  /** dayKeyAndHour. */
  function DayOf(timestamp: int, offsetMinutes: int): int {
    LocalSeconds(timestamp, offsetMinutes) / 86400
  }

  function HourOf(timestamp: int, offsetMinutes: int): (h: int)
    ensures 0 <= h < 24
  {
    LocalSeconds(timestamp, offsetMinutes) % 86400 / 3600
  }

  function EventTag(e: UsageEvent): Tag {
    Tag(DayOf(e.timestamp, e.offsetMinutes), HourOf(e.timestamp, e.offsetMinutes), e.eventName, e.featureKey,
        e.categoryIds)
  }

  function BucketTag(b: Bucket): Tag {
    Tag(b.day, b.hour, b.eventName, b.featureKey, b.categoryIds)
  }

  // ---------------------------------------------------------------- the string

  function Digit(d: nat): char
    requires d < 10
  {
    "0123456789"[d]
  }

  function Digits(n: nat): (s: string)
    ensures s != ""
  {
    if n < 10 then [Digit(n)] else Digits(n / 10) + [Digit(n % 10)]
  }

  function Decimal(n: int): string {
    if n < 0 then "-" + Digits(-n) else Digits(n)
  }

  lemma DigitInjective(a: nat, b: nat)
    requires a < 10 && b < 10 && Digit(a) == Digit(b)
    ensures a == b
  {
  }

  lemma {:induction false} DigitsInjective(a: nat, b: nat)
    requires Digits(a) == Digits(b)
    ensures a == b
  {
    assert Digits(a)[|Digits(a)| - 1] == Digit(a % 10) && Digits(b)[|Digits(b)| - 1] == Digit(b % 10);
    DigitInjective(a % 10, b % 10);
    if a >= 10 && b >= 10 {
      assert Digits(a)[..|Digits(a)| - 1] == Digits(a / 10);
      assert Digits(b)[..|Digits(b)| - 1] == Digits(b / 10);
      DigitsInjective(a / 10, b / 10);
    }
  }

  lemma {:induction false} DigitsAreDigits(n: nat, c: char)
    requires c in Digits(n)
    ensures '0' <= c <= '9'
  {
    if n >= 10 && c in Digits(n / 10) {
      DigitsAreDigits(n / 10, c);
    }
  }

  lemma DecimalInjective(a: int, b: int)
    requires Decimal(a) == Decimal(b)
    ensures a == b
  {
    if a < 0 && b < 0 {
      assert Decimal(a)[1..] == Digits(-a) && Decimal(b)[1..] == Digits(-b);
      DigitsInjective(-a, -b);
    } else if a >= 0 && b >= 0 {
      DigitsInjective(a, b);
    } else {
      DigitsAreDigits(if a < 0 then b else a, Decimal(a)[0]);
    }
  }

  lemma DecimalHasNoBar(n: int)
    ensures '|' !in Decimal(n)
  {
    if '|' in Digits(if n < 0 then -n else n) {
      DigitsAreDigits(if n < 0 then -n else n, '|');
    }
  }

  /** One field of the key and the rest. */
  function Field(first: string, rest: string): string {
    first + "|" + rest
  }

  /** categoryIds.joined(separator: ","). */
  function JoinedNames(names: seq<Name>): string {
    if names == [] then ""
    else if |names| == 1 then names[0].text
    else names[0].text + "," + JoinedNames(names[1..])
  }

  function OrDash(name: Option<Name>): string {
    if name.Some? then name.value.text else "-"
  }

  /** bucketKey. */
  function BucketKey(scope: string, tag: Tag, tab: Option<Name>, view: Option<Name>): string {
    Field(scope, Field(Decimal(tag.day), Field(Decimal(tag.hour), Field(tag.eventName.text, Field(tag.featureKey.text,
      Field(OrDash(tab), Field(OrDash(view), JoinedNames(tag.categoryIds))))))))
  }

  /** The parts of a key; a missing tab or view is a dash. */
  function KeyTexts(scope: string, tag: Tag, tab: Option<Name>, view: Option<Name>): seq<string> {
    [scope, Decimal(tag.day), Decimal(tag.hour), tag.eventName.text, tag.featureKey.text,
     match tab case Some(n) => n.text case None => "-", match view case Some(n) => n.text case None => "-",
     JoinedNames(tag.categoryIds)]
  }

  /** The eight parts stand with bars between them. */
  lemma BucketKeyText(scope: string, tag: Tag, tab: Option<Name>, view: Option<Name>)
    ensures BucketKey(scope, tag, tab, view) == Joined(KeyTexts(scope, tag, tab, view), "|")
  {
    var ts := KeyTexts(scope, tag, tab, view);
    assert OrDash(tab) == ts[5] && OrDash(view) == ts[6];
    hide Decimal, JoinedNames, OrDash, Joined, Field;
    assert Joined(ts[7..], "|") == ts[7] by { LastPart(ts[7]); assert ts[7..] == [ts[7]]; }
    PartBefore(ts, 6); PartBefore(ts, 5); PartBefore(ts, 4); PartBefore(ts, 3);
    PartBefore(ts, 2); PartBefore(ts, 1); PartBefore(ts, 0);
    assert ts[0..] == ts;
  }

  lemma LastPart(part: string)
    ensures Joined([part], "|") == part
  {
  }

  lemma PartBefore(parts: seq<string>, k: nat)
    requires k + 1 < |parts|
    ensures Joined(parts[k..], "|") == Field(parts[k], Joined(parts[k + 1..], "|"))
  {
    assert parts[k..][1..] == parts[k + 1..];
  }

  /** A number from its decimal digits. */
  function FromDigits(s: string): int {
    if s == "" then 0 else 10 * FromDigits(s[..|s| - 1]) + (s[|s| - 1] as int - '0' as int)
  }

  lemma {:induction false} DigitsAreDecimal(n: nat)
    ensures FromDigits(Digits(n)) == n
    ensures Decimal(n) == Digits(n)
    ensures n > 0 ==> Decimal(0 - n) == "-" + Digits(n)
  {
    var s := Digits(n);
    assert "0123456789"[n % 10] as int == '0' as int + n % 10;
    if n < 10 {
      assert s[..|s| - 1] == "";
    } else {
      DigitsAreDecimal(n / 10);
      assert s[..|s| - 1] == Digits(n / 10);
    }
  }

  lemma Cut(a: string, x: string, b: string, y: string, c: char)
    requires c !in a && c !in b && a + [c] + x == b + [c] + y
    ensures a == b && x == y
  {
    var s := a + [c] + x;
    assert s[|a|] == c && s[|b|] == c;
    assert forall i :: 0 <= i < |a| ==> s[i] == a[i] && a[i] in a;
    assert forall i :: 0 <= i < |b| ==> s[i] == b[i] && b[i] in b;
    assert s[..|a|] == a && s[..|b|] == b;
    assert s[|a| + 1..] == x && s[|b| + 1..] == y;
  }

  lemma FieldCut(a: string, x: string, b: string, y: string)
    requires '|' !in a && '|' !in b && Field(a, x) == Field(b, y)
    ensures a == b && x == y
  {
    Cut(a, x, b, y, '|');
  }

  lemma ScopeCut(scope: string, x: string, y: string)
    requires Field(scope, x) == Field(scope, y)
    ensures x == y
  {
    assert Field(scope, x)[|scope| + 1..] == x && Field(scope, y)[|scope| + 1..] == y;
  }

  predicate PlainCategories(names: seq<Name>) {
    forall n :: n in names ==> n.text != "" && ',' !in n.text
  }

  lemma CommaJoined(names: seq<Name>)
    ensures |names| > 1 ==> ',' in JoinedNames(names)
    ensures |names| > 0 && names[0].text != "" ==> JoinedNames(names) != ""
  {
    if |names| > 1 {
      assert JoinedNames(names)[|names[0].text|] == ',';
    }
  }

  lemma {:induction false} JoinedInjective(a: seq<Name>, b: seq<Name>)
    requires PlainCategories(a) && PlainCategories(b) && JoinedNames(a) == JoinedNames(b)
    ensures a == b
  {
    CommaJoined(a);
    CommaJoined(b);
    assert a != [] ==> a[0] in a;
    assert b != [] ==> b[0] in b;
    if |a| > 1 && |b| > 1 {
      Cut(a[0].text, JoinedNames(a[1..]), b[0].text, JoinedNames(b[1..]), ',');
      JoinedInjective(a[1..], b[1..]);
      assert a == [a[0]] + a[1..] && b == [b[0]] + b[1..];
    }
  }

  /** Names without the two separators; the category list may then stand at the end of the key. */
  predicate PlainTag(tag: Tag) {
    '|' !in tag.eventName.text && '|' !in tag.featureKey.text && PlainCategories(tag.categoryIds)
  }

  predicate PlainName(name: Option<Name>) {
    name.Some? ==> '|' !in name.value.text
  }

  predicate PlainEvent(e: UsageEvent) {
    PlainTag(EventTag(e)) && PlainName(e.tabName) && PlainName(e.viewName)
  }

  lemma KeyParts(scope: string, a: Tag, tabA: Option<Name>, viewA: Option<Name>,
                 b: Tag, tabB: Option<Name>, viewB: Option<Name>)
    requires PlainTag(a) && PlainTag(b)
    requires PlainName(tabA) && PlainName(viewA) && PlainName(tabB) && PlainName(viewB)
    requires BucketKey(scope, a, tabA, viewA) == BucketKey(scope, b, tabB, viewB)
    ensures a == b && OrDash(tabA) == OrDash(tabB) && OrDash(viewA) == OrDash(viewB)
  {
    hide Decimal, JoinedNames;
    var lastA, lastB := JoinedNames(a.categoryIds), JoinedNames(b.categoryIds);
    var viewsA, viewsB := Field(OrDash(viewA), lastA), Field(OrDash(viewB), lastB);
    var tabsA, tabsB := Field(OrDash(tabA), viewsA), Field(OrDash(tabB), viewsB);
    var featuresA, featuresB := Field(a.featureKey.text, tabsA), Field(b.featureKey.text, tabsB);
    var eventsA, eventsB := Field(a.eventName.text, featuresA), Field(b.eventName.text, featuresB);
    var hoursA, hoursB := Field(Decimal(a.hour), eventsA), Field(Decimal(b.hour), eventsB);
    var daysA, daysB := Field(Decimal(a.day), hoursA), Field(Decimal(b.day), hoursB);
    hide Field;
    ScopeCut(scope, daysA, daysB);
    DecimalHasNoBar(a.day); DecimalHasNoBar(b.day); DecimalHasNoBar(a.hour); DecimalHasNoBar(b.hour);
    FieldCut(Decimal(a.day), hoursA, Decimal(b.day), hoursB);
    FieldCut(Decimal(a.hour), eventsA, Decimal(b.hour), eventsB);
    FieldCut(a.eventName.text, featuresA, b.eventName.text, featuresB);
    FieldCut(a.featureKey.text, tabsA, b.featureKey.text, tabsB);
    FieldCut(OrDash(tabA), viewsA, OrDash(tabB), viewsB);
    FieldCut(OrDash(viewA), lastA, OrDash(viewB), lastB);
    DecimalInjective(a.day, b.day);
    DecimalInjective(a.hour, b.hour);
    JoinedInjective(a.categoryIds, b.categoryIds);
  }

  /** With plain names the key tells everything apart but an absent tab or view from one called "-". */
  lemma KeyInjective(scope: string, a: Tag, tabA: Option<Name>, viewA: Option<Name>,
                     b: Tag, tabB: Option<Name>, viewB: Option<Name>)
    requires PlainTag(a) && PlainTag(b)
    requires PlainName(tabA) && PlainName(viewA) && PlainName(tabB) && PlainName(viewB)
    ensures BucketKey(scope, a, tabA, viewA) == BucketKey(scope, b, tabB, viewB)
       <==> a == b && OrDash(tabA) == OrDash(tabB) && OrDash(viewA) == OrDash(viewB)
  {
    if BucketKey(scope, a, tabA, viewA) == BucketKey(scope, b, tabB, viewB) {
      KeyParts(scope, a, tabA, viewA, b, tabB, viewB);
    }
  }

  /** A bar inside a name makes two features share a key. */
  lemma BarsCollide(scope: string, day: int, hour: int)
    ensures BucketKey(scope, Tag(day, hour, Name("a|b"), Name("c"), []), None, None)
         == BucketKey(scope, Tag(day, hour, Name("a"), Name("b|c"), []), None, None)
  {
    var end := Field("-", Field("-", ""));
    assert Field("a|b", Field("c", end)) == Field("a", Field("b|c", end));
  }
}
