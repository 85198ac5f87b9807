/** The "distribution" entry the driver publishes in the shared store's
    "drivers" directory (src/xenhid/fdo.c:249-608): the multi-string splitter,
    the entry format, the entry matcher, and the set / clear operations over a
    model of the store. */
module Distribution {
  import opened Kernel

  /** MAXNAMELEN: size of the on-stack name buffers. */
  const MaxNameLen: nat := 128
  /** MAXIMUM_INDEX: the last index probed under "drivers". */
  const MaximumIndex: nat := 255
  const ProductName := "XENHID"

  /** The build's identity: VENDOR_NAME_STR, the four version macros and
      whether it is a checked (DBG) build. All come from headers that are not
      part of this model, so they are parameters here. */
  datatype Identity = Identity(vendor: string, major: nat, minor: nat, micro: nat, build: nat, checked: bool)

  /** The vendor name is a non-empty C string that fits MAXNAMELEN with its NUL. */
  predicate ValidIdentity(id: Identity) {
    0 < |id.vendor| < MaxNameLen && '\0' !in id.vendor
  }

  // ---------------------------------------------------------------- characters

  predicate IsDigit(c: char) { '0' <= c <= '9' }

  /** isalnum in the C locale. */
  predicate IsAlnum(c: char) { IsDigit(c) || 'A' <= c <= 'Z' || 'a' <= c <= 'z' }

  /** __toupper */
  function ToUpper(c: char): char {
    if 'a' <= c <= 'z' then (c as int - 32) as char else c
  }

  /** The folding _stricmp applies before comparing. */
  function ToLower(c: char): char {
    if 'A' <= c <= 'Z' then (c as int + 32) as char else c
  }

  function SanitizeChar(c: char): char {
    if IsAlnum(c) then c else '_'
  }

  /** The vendor name with every non-alphanumeric character replaced by '_'. */
  function Sanitize(s: string): (r: string)
    ensures |r| == |s|
    ensures forall i :: 0 <= i < |r| ==> r[i] != ' ' && r[i] != '\0'
  {
    seq(|s|, i requires 0 <= i < |s| => SanitizeChar(s[i]))
  }

  function Upcase(s: string): (r: string)
    ensures |r| == |s|
  {
    seq(|s|, i requires 0 <= i < |s| => ToUpper(s[i]))
  }

  /** _stricmp(a, b) == 0 for NUL-free strings. */
  predicate EqualsIgnoreCase(a: string, b: string) {
    |a| == |b| && forall i :: 0 <= i < |a| ==> ToLower(a[i]) == ToLower(b[i])
  }

  // ---------------------------------------------------------------- "%u"

  function DigitChar(d: nat): char
    requires d < 10
  {
    (48 + d) as char
  }

  /** StringPrintf("%u", n): a non-empty string of decimal digits. */
  function Decimal(n: nat): (r: string)
    ensures 0 < |r|
    ensures forall i :: 0 <= i < |r| ==> IsDigit(r[i])
  {
    if n < 10 then [DigitChar(n)] else Decimal(n / 10) + [DigitChar(n % 10)]
  }

  /** The value a string of decimal digits denotes. */
  function DecimalValue(s: string): nat
    requires forall i :: 0 <= i < |s| ==> IsDigit(s[i])
  {
    if s == [] then 0
    else
      assert IsDigit(s[|s| - 1]);
      10 * DecimalValue(s[..|s| - 1]) + (s[|s| - 1] as int - 48)
  }

  lemma {:induction false} DecimalRoundTrip(n: nat)
    ensures DecimalValue(Decimal(n)) == n
  {
    if n >= 10 {
      var s := Decimal(n);
      assert s[..|s| - 1] == Decimal(n / 10);
      DecimalRoundTrip(n / 10);
    }
  }

  /** Different indexes give different keys. */
  lemma DecimalInjective(m: nat, n: nat)
    requires Decimal(m) == Decimal(n)
    ensures m == n
  {
    DecimalRoundTrip(m);
    DecimalRoundTrip(n);
  }

  // ---------------------------------------------------------------- __strtok_r(" ")

  /** Length of the word at the front of s. */
  function WordLength(s: string): (n: nat)
    ensures n <= |s|
    ensures forall i :: 0 <= i < n ==> s[i] != ' '
    ensures n < |s| ==> s[n] == ' '
  {
    if s == [] || s[0] == ' ' then 0 else 1 + WordLength(s[1..])
  }

  /** One call of __strtok_r with delimiter " ": the next token and the text
      after the delimiter that ended it, or None when only delimiters remain. */
  function StrTok(s: string): Option<(string, string)>
    decreases |s|
  {
    if s == [] then None
    else if s[0] == ' ' then StrTok(s[1..])
    else
      var n := WordLength(s);
      Some((s[..n], if n < |s| then s[n + 1..] else []))
  }

  /** Reference definition: the maximal space-free non-empty runs of s, in order. */
  function Words(s: string): seq<string>
    decreases |s|
  {
    if s == [] then []
    else if s[0] == ' ' then Words(s[1..])
    else
      var n := WordLength(s);
      assert n > 0 by { assert WordLength(s) == 1 + WordLength(s[1..]); }
      [s[..n]] + Words(s[n..])
  }

  /** __strtok_r enumerates exactly the words of the text. */
  lemma {:induction false} StrTokWords(s: string)
    ensures StrTok(s).None? <==> Words(s) == []
    ensures StrTok(s).Some? ==> Words(s) == [StrTok(s).value.0] + Words(StrTok(s).value.1)
    decreases |s|
  {
    if s != [] && s[0] == ' ' {
      StrTokWords(s[1..]);
    } else if s != [] {
      var n := WordLength(s);
      var rest: string := if n < |s| then s[n + 1..] else [];
      assert Words(s[n..]) == Words(rest) by {
        if n < |s| {
          assert s[n..][0] == ' ' && s[n..][1..] == rest;
        } else {
          assert s[n..] == [];
        }
      }
      assert Words(s) == [s[..n]] + Words(rest);
    }
  }

  lemma WordLengthOfWord(w: string, r: string)
    requires ' ' !in w
    ensures WordLength(w + (" " + r)) == |w|
    decreases |w|
  {
    if w != [] {
      assert (w + (" " + r))[1..] == w[1..] + (" " + r);
      WordLengthOfWord(w[1..], r);
    }
  }

  /** A word followed by a space is the next token; the rest follows it. */
  lemma StrTokOfWord(w: string, r: string)
    requires w != [] && ' ' !in w
    ensures StrTok(w + (" " + r)) == Some((w, r))
  {
    var s := w + (" " + r);
    assert s[0] == w[0] && s[0] != ' ';
    WordLengthOfWord(w, r);
    assert s[..|w|] == w && s[|w| + 1..] == r;
  }

  // ---------------------------------------------------------------- the entry

  function Attributes(checked: bool): string {
    if checked then "(DEBUG)" else ""
  }

  function VersionString(id: Identity): string {
    Decimal(id.major) + "." + Decimal(id.minor) + "." + Decimal(id.micro) + "." + Decimal(id.build)
  }

  /** The "%s %s %s" shape of the value written under the chosen key: the
      vendor text, the product name, and the version and attributes. */
  function FormatValue(vendorText: string, tail: string): string {
    vendorText + (" " + (ProductName + (" " + tail)))
  }

  /** The "%s %s %u.%u.%u.%u %s" value __FdoSetDistribution publishes for
      this build. */
  function DistributionValue(id: Identity): string {
    FormatValue(Sanitize(id.vendor), VersionString(id) + (" " + Attributes(id.checked)))
  }

  /** The loop of __FdoMatchDistribution from index i: each character of the
      vendor name (up to its NUL) must be matched by the token, a
      non-alphanumeric one by '_'. Past the token's end the buffer holds the
      token's NUL terminator. */
  function VendorMatchesFrom(text: string, token: string, i: nat): bool
    requires i <= |text|
    decreases |text| - i
  {
    if i == |text| || text[i] == '\0' then true
    else
      var c := if i < |token| then token[i] else '\0';
      (if IsAlnum(text[i]) then c == text[i] else c == '_') && VendorMatchesFrom(text, token, i + 1)
  }

  /** The vendor check is a prefix check against the sanitised vendor name:
      trailing characters of the token are not examined. */
  lemma {:induction false} VendorMatchesIsPrefix(text: string, token: string)
    requires '\0' !in text
    ensures VendorMatchesFrom(text, token, 0) <==>
            |text| <= |token| && token[..|text|] == Sanitize(text)
  {
    VendorMatchesFromSuffix(text, token, 0);
    if VendorMatchesFrom(text, token, 0) {
      if |text| > 0 {
        assert AgreesAt(text, token, |text| - 1);
      }
      forall k | 0 <= k < |text| ensures token[..|text|][k] == Sanitize(text)[k] {
        assert AgreesAt(text, token, k);
      }
    } else if |text| <= |token| && token[..|text|] == Sanitize(text) {
      forall k | 0 <= k < |text| ensures AgreesAt(text, token, k) {
        assert token[..|text|][k] == Sanitize(text)[k];
      }
    }
  }

  /** Position k of the vendor name is matched by the token. */
  predicate AgreesAt(text: string, token: string, k: nat)
    requires k < |text|
  {
    k < |token| && token[k] == SanitizeChar(text[k])
  }

  lemma {:induction false} VendorMatchesFromSuffix(text: string, token: string, i: nat)
    requires '\0' !in text && i <= |text|
    ensures VendorMatchesFrom(text, token, i) <==> forall k :: i <= k < |text| ==> AgreesAt(text, token, k)
    decreases |text| - i
  {
    if i < |text| {
      assert text[i] != '\0';
      VendorMatchesFromSuffix(text, token, i + 1);
      assert VendorMatchesFrom(text, token, i) == (AgreesAt(text, token, i) && VendorMatchesFrom(text, token, i + 1));
    }
  }

  /** __FdoMatchDistribution: the first two tokens must be the (sanitised)
      vendor name and, ignoring case, "XENHID". */
  function MatchDistribution(vendor: string, value: string): bool {
    match StrTok(value)
    case None => false
    case Some((first, rest)) =>
      match StrTok(rest)
      case None => false
      case Some((second, _)) => VendorMatchesFrom(vendor, first, 0) && EqualsIgnoreCase(second, ProductName)
  }

  /** The matcher in terms of the words of the value: fewer than two words
      never match; otherwise the first word must begin with the sanitised
      vendor name and the second equal "XENHID" ignoring case. */
  lemma MatchDistributionWords(vendor: string, value: string)
    requires '\0' !in vendor
    ensures MatchDistribution(vendor, value) <==>
            var w := Words(value);
            |w| >= 2 && |vendor| <= |w[0]| && w[0][..|vendor|] == Sanitize(vendor) &&
            EqualsIgnoreCase(w[1], ProductName)
  {
    StrTokWords(value);
    match StrTok(value)
    case None =>
    case Some((first, rest)) =>
      StrTokWords(rest);
      VendorMatchesIsPrefix(vendor, first);
  }

  /** The matcher accepts the sanitised vendor name followed by "XENHID",
      whatever follows them. */
  lemma FormatValueMatches(vendor: string, tail: string)
    requires vendor != [] && '\0' !in vendor
    ensures MatchDistribution(vendor, FormatValue(Sanitize(vendor), tail))
  {
    var san := Sanitize(vendor);
    var rest := ProductName + (" " + tail);
    assert ' ' !in san by {
      forall k | 0 <= k < |san| ensures san[k] != ' ' { }
    }
    StrTokOfWord(san, rest);
    assert ' ' !in ProductName;
    StrTokOfWord(ProductName, tail);
    VendorMatchesIsPrefix(vendor, san);
    assert san[..|vendor|] == san;
  }

  /** Round trip: the value set publishes is recognised by the matcher. */
  lemma PublishedValueMatches(id: Identity)
    requires ValidIdentity(id)
    ensures MatchDistribution(id.vendor, DistributionValue(id))
  {
    FormatValueMatches(id.vendor, VersionString(id) + (" " + Attributes(id.checked)));
  }

  // ---------------------------------------------------------------- the store

  /** The store's "drivers" directory: its entries, the keys whose read
      fails with a status other than "not found" (a transport error), and
      the keys whose Remove fails. */
  datatype Store = Store(drivers: map<string, string>, readFaults: map<string, Status>, removeFaults: set<string>)

  datatype ReadResult = ReadOk(value: string) | ReadFailed(status: Status)

  /** XENBUS_STORE(Read, ..., "drivers", key). */
  function Read(store: Store, key: string): ReadResult {
    if key in store.readFaults && !NtSuccess(store.readFaults[key]) then ReadFailed(store.readFaults[key])
    else if key in store.drivers then ReadOk(store.drivers[key])
    else ReadFailed(ObjectNameNotFound)
  }

  /** Outcome of probing keys "i".."255". */
  datatype Probe = FreeAt(index: nat) | ReadError(status: Status) | Exhausted

  function ProbeFrom(store: Store, i: nat): Probe
    requires i <= MaximumIndex + 1
    decreases MaximumIndex + 1 - i
  {
    if i > MaximumIndex then Exhausted
    else
      match Read(store, Decimal(i))
      case ReadOk(_) => ProbeFrom(store, i + 1)
      case ReadFailed(st) => if st == ObjectNameNotFound then FreeAt(i) else ReadError(st)
  }

  /** Every key "lo".."hi-1" reads back successfully. */
  predicate AllReadable(store: Store, lo: nat, hi: nat) {
    forall j :: lo <= j < hi ==> Read(store, Decimal(j)).ReadOk?
  }

  /** The probe walks past readable keys without stopping. */
  lemma {:induction false} ProbeSkipsReadable(store: Store, i: nat, k: nat)
    requires i <= k <= MaximumIndex + 1
    requires AllReadable(store, i, k)
    ensures ProbeFrom(store, i) == ProbeFrom(store, k)
    decreases k - i
  {
    if i < k {
      assert Read(store, Decimal(i)).ReadOk?;
      ProbeSkipsReadable(store, i + 1, k);
    }
  }

  /** __FdoSetDistribution as a function of the store: the status and the
      store afterwards. `written` is whether the store accepted the ignored
      Printf. */
  function SetResult(store: Store, id: Identity, written: bool): (Status, Store) {
    match ProbeFrom(store, 0)
    case FreeAt(k) =>
      (Success, if written then store.(drivers := store.drivers[Decimal(k) := DistributionValue(id)]) else store)
    case ReadError(st) => (st, store)
    case Exhausted => (Unsuccessful, store)
  }

  /** The entry goes under the smallest key "0".."255" whose read says "not
      found", and nothing else changes. */
  lemma SetWritesFirstFreeKey(store: Store, id: Identity, written: bool, k: nat)
    requires k <= MaximumIndex && AllReadable(store, 0, k)
    requires Read(store, Decimal(k)) == ReadFailed(ObjectNameNotFound)
    ensures SetResult(store, id, written) ==
            (Success, if written then store.(drivers := store.drivers[Decimal(k) := DistributionValue(id)]) else store)
  {
    ProbeSkipsReadable(store, 0, k);
  }

  /** Any other read error before a free key is returned, with nothing written. */
  lemma SetStopsAtReadError(store: Store, id: Identity, written: bool, k: nat)
    requires k <= MaximumIndex && AllReadable(store, 0, k)
    requires Read(store, Decimal(k)).ReadFailed? && Read(store, Decimal(k)).status != ObjectNameNotFound
    ensures SetResult(store, id, written) == (Read(store, Decimal(k)).status, store)
  {
    ProbeSkipsReadable(store, 0, k);
  }

  /** When all 256 keys exist the result is STATUS_UNSUCCESSFUL, with nothing written. */
  lemma SetFailsWhenAllKeysExist(store: Store, id: Identity, written: bool)
    requires AllReadable(store, 0, MaximumIndex + 1)
    ensures SetResult(store, id, written) == (Unsuccessful, store)
  {
    ProbeSkipsReadable(store, 0, MaximumIndex + 1);
  }

  /** The part of __FdoClearDistribution applied to one listed key: remove it
      when its value reads back and matches. */
  predicate Removable(store: Store, vendor: string, key: string) {
    Read(store, key).ReadOk? && MatchDistribution(vendor, Read(store, key).value)
  }

  /** XENBUS_STORE(Remove, ..., "drivers", key), whose status the caller
      drops: a failing Remove leaves the key in place. */
  function Remove(store: Store, key: string): Store {
    if key in store.removeFaults then store else store.(drivers := store.drivers - {key})
  }

  function ClearOne(store: Store, vendor: string, key: string): Store {
    if Removable(store, vendor, key) then Remove(store, key) else store
  }

  /** The loop of __FdoClearDistribution over the listed keys, in order. */
  function Cleared(store: Store, vendor: string, names: seq<string>): Store
    decreases |names|
  {
    if names == [] then store
    else ClearOne(Cleared(store, vendor, names[..|names| - 1]), vendor, names[|names| - 1])
  }

  /** Clearing one more listed key. */
  lemma ClearedStep(store: Store, vendor: string, names: seq<string>, i: nat, before: Store, after: Store)
    requires i < |names| && before == Cleared(store, vendor, names[..i])
    requires after == ClearOne(before, vendor, names[i])
    ensures after == Cleared(store, vendor, names[..i + 1])
  {
    assert names[..i + 1][..i] == names[..i];
  }

  /** Clearing removes exactly the listed keys whose value matches and whose
      Remove succeeds, and leaves every other entry untouched. */
  lemma {:induction false} ClearedExactly(store: Store, vendor: string, names: seq<string>)
    ensures Cleared(store, vendor, names).readFaults == store.readFaults
    ensures Cleared(store, vendor, names).removeFaults == store.removeFaults
    ensures forall k :: k in Cleared(store, vendor, names).drivers <==>
                        k in store.drivers && !(k in names && Removable(store, vendor, k) && k !in store.removeFaults)
    ensures forall k :: k in Cleared(store, vendor, names).drivers ==>
                        Cleared(store, vendor, names).drivers[k] == store.drivers[k]
    decreases |names|
  {
    if names != [] {
      var init := names[..|names| - 1];
      var last := names[|names| - 1];
      ClearedExactly(store, vendor, init);
      var before := Cleared(store, vendor, init);
      assert names == init + [last];
      forall k
        ensures k in Cleared(store, vendor, names).drivers <==>
                k in store.drivers && !(k in names && Removable(store, vendor, k) && k !in store.removeFaults)
      {
        if k == last && k in before.drivers {
          assert Read(before, k) == Read(store, k);
        }
      }
    }
  }

  // ---------------------------------------------------------------- multi-strings

  /** The buffer holds a double-NUL terminator somewhere. */
  predicate HasDoubleNul(s: string) {
    exists j :: 0 <= j < |s| - 1 && s[j] == '\0' && s[j + 1] == '\0'
  }

  /** The first NUL, from i, that is followed by another NUL. */
  function DoubleNulFrom(s: string, i: nat): (j: nat)
    requires i <= |s|
    requires exists j :: i <= j < |s| - 1 && s[j] == '\0' && s[j + 1] == '\0'
    ensures i <= j < |s| - 1 && s[j] == '\0' && s[j + 1] == '\0'
    ensures forall k :: i <= k < j ==> !(s[k] == '\0' && s[k + 1] == '\0')
    decreases |s| - i
  {
    if s[i] == '\0' && s[i + 1] == '\0' then i
    else
      assert exists j :: i + 1 <= j < |s| - 1 && s[j] == '\0' && s[j + 1] == '\0';
      DoubleNulFrom(s, i + 1)
  }

  /** strlen: the offset of the first NUL, or |s| when there is none. */
  function NulIndex(s: string): (n: nat)
    ensures n <= |s|
    ensures n < |s| ==> s[n] == '\0'
  {
    NulFrom(s, 0)
  }

  /** The scan of strlen from offset i. */
  function NulFrom(s: string, i: nat): (n: nat)
    requires i <= |s|
    ensures i <= n <= |s|
    ensures n < |s| ==> s[n] == '\0'
    decreases |s| - i
  {
    if i == |s| || s[i] == '\0' then i else NulFrom(s, i + 1)
  }

  /** strlen stops at the first NUL: there is none before it. */
  lemma NulIndexFirst(s: string)
    ensures '\0' !in s[..NulIndex(s)]
  {
    NulFromFirst(s, 0);
  }

  lemma {:induction false} NulFromFirst(s: string, i: nat)
    requires i <= |s|
    ensures forall k :: i <= k < NulFrom(s, i) ==> s[k] != '\0'
    decreases |s| - i
  {
    if i < |s| && s[i] != '\0' {
      NulFromFirst(s, i + 1);
    }
  }

  /** The NUL-separated pieces of s. */
  function SplitNul(s: string): seq<string>
    decreases |s|
  {
    var n := NulIndex(s);
    if n == |s| then [s] else [s[..n]] + SplitNul(s[n + 1..])
  }

  /** Joining pieces back with NUL separators. */
  function JoinNul(parts: seq<string>): string {
    if parts == [] then []
    else if |parts| == 1 then parts[0]
    else parts[0] + "\0" + JoinNul(parts[1..])
  }

  /** Splitting loses nothing: the pieces hold no NUL and join back to s. */
  lemma {:induction false} SplitNulJoin(s: string)
    ensures JoinNul(SplitNul(s)) == s
    ensures forall p :: p in SplitNul(s) ==> '\0' !in p
    decreases |s|
  {
    var n := NulIndex(s);
    NulIndexFirst(s);
    if n < |s| {
      SplitNulJoin(s[n + 1..]);
      assert s == s[..n] + "\0" + s[n + 1..];
    }
  }

  /** One piece per NUL, plus one. */
  lemma {:induction false} SplitNulCount(s: string)
    ensures |SplitNul(s)| == multiset(s)['\0'] + 1
    decreases |s|
  {
    var n := NulIndex(s);
    NulIndexFirst(s);
    if n < |s| {
      SplitNulCount(s[n + 1..]);
      assert s == s[..n] + "\0" + s[n + 1..];
    } else {
      assert s == s[..n];
    }
  }

  /** strlen from an offset only depends on the text up to a NUL there. */
  lemma NulIndexUpTo(s: string, m: nat)
    requires m < |s| && s[m] == '\0'
    ensures NulIndex(s) == NulIndex(s[..m])
  {
    var a := NulIndex(s);
    var b := NulIndex(s[..m]);
    NulIndexFirst(s);
    NulIndexFirst(s[..m]);
    assert a == b;
  }

  /** The strings __FdoMultiSzToUpcaseAnsi returns for a directory listing:
      the upper-cased pieces before the first double NUL. */
  function ListedNames(buffer: string): seq<string>
    requires HasDoubleNul(buffer)
  {
    SplitNul(Upcase(buffer[..DoubleNulFrom(buffer, 0)]))
  }

  /** A listing that is only the terminator ("\0\0") yields one empty string. */
  lemma EmptyListingHasOneEmptyName()
    ensures HasDoubleNul("\0\0") && ListedNames("\0\0") == [""]
  {
    var s := "\0\0";
    assert s[0] == '\0' && s[1] == '\0';
    assert DoubleNulFrom(s, 0) == 0;
    assert Upcase(s[..0]) == [];
  }

  /** Decimal keys are unaffected by the upper-casing of the listing. */
  lemma UpcaseDecimal(n: nat)
    ensures Upcase(Decimal(n)) == Decimal(n)
  {
  }

  /** Upper-casing one more character of a prefix: NULs stay NULs, and
      nothing else becomes one. */
  lemma UpcasePrefixStep(s: string, i: nat)
    requires i < |s|
    ensures multiset(Upcase(s[..i + 1]))['\0'] ==
            multiset(Upcase(s[..i]))['\0'] + (if s[i] == '\0' then 1 else 0)
  {
    assert Upcase(s[..i + 1]) == Upcase(s[..i]) + [ToUpper(s[i])];
  }

  /** The first loop of __FdoMultiSzToUpcaseAnsi: upper-cases the buffer in
      place up to its double NUL and counts the strings it holds. */
  method UpcaseAndCount(buffer: array<char>) returns (count: nat)
    requires HasDoubleNul(buffer[..])
    modifies buffer
    ensures var j := DoubleNulFrom(old(buffer[..]), 0);
            buffer[..] == Upcase(old(buffer[..])[..j]) + old(buffer[..])[j..]
    ensures count == |SplitNul(Upcase(old(buffer[..])[..DoubleNulFrom(old(buffer[..]), 0)]))|
  {
    ghost var s := buffer[..];
    ghost var j := DoubleNulFrom(s, 0);
    var index := 0;
    count := 0;
    while true
      invariant 0 <= index <= j
      invariant forall k :: 0 <= k < index ==> buffer[k] == ToUpper(s[k])
      invariant forall k :: index <= k < buffer.Length ==> buffer[k] == s[k]
      invariant count == multiset(Upcase(s[..index]))['\0']
      decreases j - index
    {
      UpcasePrefixStep(s, index);
      if buffer[index] == '\0' {
        count := count + 1;
        index := index + 1;
        if buffer[index] == '\0' {
          break;
        }
      } else {
        buffer[index] := ToUpper(buffer[index]);
        index := index + 1;
      }
    }
    UpcaseCountDone(s, j, buffer[..], count);
  }

  /** Where the first loop stops: the buffer is upper-cased before the
      double NUL and the count is the number of strings before it. */
  lemma UpcaseCountDone(s: string, j: nat, u: string, count: nat)
    requires j + 1 < |s| && s[j] == '\0' && |u| == |s|
    requires forall k :: 0 <= k < j ==> u[k] == ToUpper(s[k])
    requires forall k :: j <= k < |u| ==> u[k] == s[k]
    requires count == multiset(Upcase(s[..j + 1]))['\0']
    ensures u == Upcase(s[..j]) + s[j..]
    ensures count == |SplitNul(Upcase(s[..j]))|
  {
    UpcasePrefixStep(s, j);
    SplitNulCount(Upcase(s[..j]));
  }

  /** The pieces still to be copied when the text from the current string
      on is `rest` and the terminating NUL sits at offset m of it; none once
      the pointer has passed the terminator (m < 0). */
  function Remaining(rest: string, m: int): seq<string>
    requires m < |rest|
  {
    if m < 0 then [] else SplitNul(rest[..m])
  }

  /** One turn of the copy loop: strlen, the copy of that many characters,
      and the pointer stepped past the NUL. The piece taken is the first of
      the pieces still to be copied, and the rest follow from the new
      pointer. */
  method TakePiece(rest: string, ghost m: int) returns (piece: string, next: string, ghost m': int)
    requires 0 <= m < |rest| && rest[m] == '\0'
    ensures m' < |next| && (m' >= 0 ==> next[m'] == '\0')
    ensures Remaining(rest, m) == [piece] + Remaining(next, m')
  {
    var length := NulIndex(rest);
    NulIndexUpTo(rest, m);
    piece := rest[..length];
    next := rest[length + 1..];
    m' := m - length - 1;
    if length < m {
      PieceBeforeTerminator(rest, m, length);
    } else {
      LastPiece(rest, m);
    }
  }

  /** A piece that ends before the terminator is followed by the pieces
      between its NUL and the terminator. */
  lemma PieceBeforeTerminator(rest: string, m: nat, n: nat)
    requires m < |rest| && n < m && n == NulIndex(rest[..m])
    ensures SplitNul(rest[..m]) == [rest[..n]] + SplitNul(rest[n + 1..][..m - n - 1])
  {
    var t := rest[..m];
    SplitNulHead(t);
    assert t[..n] == rest[..n];
    assert t[n + 1..] == rest[n + 1..][..m - n - 1];
  }

  /** A piece that runs up to the terminator is the last one. */
  lemma LastPiece(rest: string, m: nat)
    requires m < |rest| && NulIndex(rest[..m]) == m
    ensures SplitNul(rest[..m]) == [rest[..m]]
  {
    SplitNulHead(rest[..m]);
  }

  /** The first piece runs up to the first NUL; the others follow it. */
  lemma SplitNulHead(t: string)
    ensures NulIndex(t) < |t| ==> SplitNul(t) == [t[..NulIndex(t)]] + SplitNul(t[NulIndex(t) + 1..])
    ensures NulIndex(t) == |t| ==> SplitNul(t) == [t[..NulIndex(t)]]
  {
    assert t[..|t|] == t;
  }

  /** The second loop of __FdoMultiSzToUpcaseAnsi: copies out `count`
      strings, each up to its NUL (strlen), stepping the pointer past the
      NUL. */
  method CopyStrings(buffer: array<char>, count: nat, ghost j: nat) returns (strings: seq<string>)
    requires j < buffer.Length && buffer[j] == '\0'
    requires count == |SplitNul(buffer[..j])|
    ensures strings == SplitNul(buffer[..j])
  {
    // the loop only reads the buffer
    var rest := buffer[..];
    ghost var m: int := j;
    ghost var all := Remaining(rest, m);
    strings := [];
    var taken := 0;
    while taken < count
      invariant 0 <= taken <= count
      invariant m < |rest| && (m >= 0 ==> rest[m] == '\0')
      invariant strings + Remaining(rest, m) == all
      invariant taken + |Remaining(rest, m)| == count
      decreases count - taken
    {
      ghost var before := Remaining(rest, m);
      assert m >= 0;
      var piece;
      piece, rest, m := TakePiece(rest, m);
      assert (strings + [piece]) + Remaining(rest, m) == strings + before;
      strings := strings + [piece];
      taken := taken + 1;
    }
    assert Remaining(rest, m) == [];
  }

  /** __FdoMultiSzToUpcaseAnsi: upper-cases the listing in place up to its
      double NUL and returns its strings; None when an allocation fails. */
  method MultiSzToUpcaseAnsi(buffer: array<char>, allocOk: bool) returns (r: Option<seq<string>>)
    requires HasDoubleNul(buffer[..])
    modifies buffer
    ensures var j := DoubleNulFrom(old(buffer[..]), 0);
            buffer[..] == Upcase(old(buffer[..])[..j]) + old(buffer[..])[j..]
    ensures r == if allocOk then Some(ListedNames(old(buffer[..]))) else None
  {
    ghost var s := buffer[..];
    ghost var j := DoubleNulFrom(s, 0);
    var count := UpcaseAndCount(buffer);
    if !allocOk {
      return None;
    }
    assert buffer[..j] == Upcase(s[..j]) && buffer[j] == s[j];
    var strings := CopyStrings(buffer, count, j);
    return Some(strings);
  }

  // ---------------------------------------------------------------- set and clear

  /** How XENBUS_STORE(Directory, ..., "drivers") answered. */
  datatype Directory = Listing(buffer: string) | DirectoryFailed(status: Status)

  /** A listing is a double-NUL-terminated multi-string. */
  predicate WellFormedDirectory(dir: Directory) {
    dir.Listing? ==> HasDoubleNul(dir.buffer)
  }

  /** __FdoClearDistribution as a function of the store. `allocOk` is
      whether the splitter's allocations succeed. */
  function ClearResult(store: Store, vendor: string, dir: Directory, allocOk: bool): Store
    requires WellFormedDirectory(dir)
  {
    match dir
    case DirectoryFailed(_) => store
    case Listing(buffer) => if allocOk then Cleared(store, vendor, ListedNames(buffer)) else store
  }

  /** Sanitises, in place, the NUL-terminated vendor name in the buffer. */
  method SanitizeVendor(buffer: array<char>, ghost length: nat)
    requires length < buffer.Length && buffer[length] == '\0' && '\0' !in buffer[..length]
    modifies buffer
    ensures buffer[..length] == Sanitize(old(buffer[..length]))
    ensures buffer[length..] == old(buffer[length..])
  {
    var index := 0;
    while buffer[index] != '\0'
      invariant 0 <= index <= length
      invariant buffer[..index] == Sanitize(old(buffer[..index]))
      invariant buffer[index..] == old(buffer[index..])
      decreases length - index
    {
      assert buffer[index] == old(buffer[index]);
      assert old(buffer[index]) in old(buffer[..length]);
      if !IsAlnum(buffer[index]) {
        buffer[index] := '_';
      }
      assert buffer[..index + 1] == buffer[..index] + [SanitizeChar(old(buffer[index]))];
      index := index + 1;
    }
  }

  /** __FdoSetDistribution: probe "0".."255" for the first free key, then
      write the entry there (the write's own result is ignored). */
  method SetDistribution(store: Store, id: Identity, written: bool) returns (status: Status, result: Store)
    requires ValidIdentity(id)
    ensures (status, result) == SetResult(store, id, written)
  {
    var index := 0;
    while index <= MaximumIndex
      invariant 0 <= index <= MaximumIndex + 1
      invariant ProbeFrom(store, index) == ProbeFrom(store, 0)
      decreases MaximumIndex + 1 - index
    {
      var read := Read(store, Decimal(index));
      if read.ReadFailed? {
        if read.status == ObjectNameNotFound {
          break;
        }
        return read.status, store;
      }
      index := index + 1;
    }
    if index > MaximumIndex {
      return Unsuccessful, store;
    }
    assert ProbeFrom(store, 0) == FreeAt(index);

    var vendor := new char[MaxNameLen](i requires 0 <= i => if i < |id.vendor| then id.vendor[i] else '\0');
    assert vendor[..|id.vendor|] == id.vendor;
    SanitizeVendor(vendor, |id.vendor|);
    var value := FormatValue(vendor[..|id.vendor|], VersionString(id) + (" " + Attributes(id.checked)));
    result := if written then store.(drivers := store.drivers[Decimal(index) := value]) else store;
    status := Success;
  }

  /** __FdoClearDistribution: list the directory, then remove every listed
      key whose value matches this driver's entry. */
  method ClearDistribution(store: Store, vendor: string, dir: Directory, allocOk: bool) returns (result: Store)
    requires WellFormedDirectory(dir)
    ensures result == ClearResult(store, vendor, dir, allocOk)
  {
    result := store;
    if dir.DirectoryFailed? {
      return;
    }
    var listing := dir.buffer;
    var buffer := new char[|listing|](i requires 0 <= i < |listing| => listing[i]);
    assert buffer[..] == listing;
    var names := MultiSzToUpcaseAnsi(buffer, allocOk);
    if names.None? {
      return;
    }
    result := ClearListed(store, vendor, names.value);
  }

  /** The loop of __FdoClearDistribution: read each listed key and remove it
      when its value matches. */
  method ClearListed(store: Store, vendor: string, distributions: seq<string>) returns (result: Store)
    ensures result == Cleared(store, vendor, distributions)
  {
    result := store;
    var index := 0;
    while index < |distributions|
      invariant 0 <= index <= |distributions|
      invariant result == Cleared(store, vendor, distributions[..index])
    {
      var key := distributions[index];
      ghost var before := result;
      var read := Read(result, key);
      if read.ReadOk? && MatchDistribution(vendor, read.value) {
        result := Remove(result, key);
      }
      ClearedStep(store, vendor, distributions, index, before, result);
      index := index + 1;
    }
    assert distributions[..index] == distributions;
  }

  /** Round trip over the store: once set has published its entry under the
      first free key, clearing with a listing that names that key removes it,
      provided the store's Remove of that key succeeds. */
  lemma SetThenClearRemoves(store: Store, id: Identity, k: nat, names: seq<string>)
    requires ValidIdentity(id)
    requires k <= MaximumIndex && AllReadable(store, 0, k)
    requires Read(store, Decimal(k)) == ReadFailed(ObjectNameNotFound)
    requires Decimal(k) !in store.readFaults && Decimal(k) !in store.removeFaults
    requires Decimal(k) in names
    ensures SetResult(store, id, true).0 == Success
    ensures Decimal(k) !in Cleared(SetResult(store, id, true).1, id.vendor, names).drivers
  {
    SetWritesFirstFreeKey(store, id, true, k);
    var after := SetResult(store, id, true).1;
    assert Read(after, Decimal(k)) == ReadOk(DistributionValue(id));
    PublishedValueMatches(id);
    ClearedExactly(after, id.vendor, names);
  }

  /** The Remove status is dropped: when the store fails to remove the
      published key, the entry survives the clear and still reads back with
      its value, so a later probe walks past it. */
  lemma FailedRemoveLeavesEntry(store: Store, id: Identity, k: nat, names: seq<string>)
    requires k <= MaximumIndex && AllReadable(store, 0, k)
    requires Read(store, Decimal(k)) == ReadFailed(ObjectNameNotFound)
    requires Decimal(k) !in store.readFaults && Decimal(k) in store.removeFaults
    ensures Read(Cleared(SetResult(store, id, true).1, id.vendor, names), Decimal(k)) == ReadOk(DistributionValue(id))
  {
    SetWritesFirstFreeKey(store, id, true, k);
    ClearedExactly(SetResult(store, id, true).1, id.vendor, names);
  }
}
