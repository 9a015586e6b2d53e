/**
 * The device catalogue of js/devices.js: the DEVICE_DATA and
 * FEATURED_COMPARISONS tables and the three queries over them, a
 * case-insensitive category filter and two stable sorts.
 *
 * A JavaScript object's string keys enumerate in insertion order, so the
 * table is a sequence of (key, device) entries in that order.  Screen sizes
 * are integer hundredths of an inch, which keeps their comparison exact.
 */
module Devices {
  import Strings

  datatype Device = Device(
    name: string,
    category: string,
    year: int,
    price: string,
    screenSize: nat,        // hundredths of an inch
    displaySize: string,
    resolution: string,
    batteryLife: string,
    weight: string,
    connectivity: string,
    width: nat,
    height: nat,
    description: string,
    specs: seq<(string, string)>,
    features: seq<string>)

  /** One key of DEVICE_DATA with its value. */
  datatype Entry = Entry(key: string, device: Device)

  /** `{...DEVICE_DATA[key], id: key}`: a copy of the device carrying its key as `id`. */
  datatype DeviceRecord = DeviceRecord(id: string, device: Device)

  function Record(e: Entry): (r: DeviceRecord)
    ensures r.id == e.key && r.device == e.device
  {
    DeviceRecord(e.key, e.device)
  }

  function Keys(table: seq<Entry>): (ks: seq<string>)
    ensures |ks| == |table| && forall i :: 0 <= i < |table| ==> ks[i] == table[i].key
  {
    if table == [] then [] else Keys(table[..|table| - 1]) + [table[|table| - 1].key]
  }

  /** `Object.keys(DEVICE_DATA).map(key => ({...DEVICE_DATA[key], id: key}))`. */
  function Records(table: seq<Entry>): (rs: seq<DeviceRecord>)
    ensures |rs| == |table| && forall i :: 0 <= i < |table| ==> rs[i] == Record(table[i])
  {
    if table == [] then [] else Records(table[..|table| - 1]) + [Record(table[|table| - 1])]
  }

  // ---- getDevicesByCategory ---------------------------------------------------

  /** The category comparison: both sides lower-cased, then compared exactly. */
  predicate InCategory(d: Device, category: string)
  {
    Strings.Lower(d.category) == Strings.Lower(category)
  }

  /** The positions among the first n entries whose category matches, ascending. */
  function Matching(table: seq<Entry>, category: string, n: nat): (pos: seq<nat>)
    requires n <= |table|
    ensures forall k :: 0 <= k < |pos| ==> pos[k] < n
    ensures forall k, m :: 0 <= k < m < |pos| ==> pos[k] < pos[m]
    ensures forall i :: 0 <= i < n ==> (i in pos <==> InCategory(table[i].device, category))
    decreases n
  {
    if n == 0 then []
    else Matching(table, category, n - 1) + (if InCategory(table[n - 1].device, category) then [n - 1] else [])
  }

  /**
   * getDevicesByCategory: the records of exactly the entries whose category
   * matches, each carrying its key as id, in table order.
   */
  function ByCategory(table: seq<Entry>, category: string): (r: seq<DeviceRecord>)
    ensures var pos := Matching(table, category, |table|);
      |r| == |pos| && forall k :: 0 <= k < |r| ==> r[k] == Record(table[pos[k]])
  {
    var pos := Matching(table, category, |table|);
    seq(|pos|, k requires 0 <= k < |pos| => Record(table[pos[k]]))
  }

  /** A record is returned exactly when its entry's category matches. */
  lemma ByCategoryMembers(table: seq<Entry>, category: string, i: nat)
    requires i < |table|
    ensures InCategory(table[i].device, category) <==> Record(table[i]) in ByCategory(table, category)
    ensures InCategory(table[i].device, category) ==> |ByCategory(table, category)| > 0
  {
    var pos := Matching(table, category, |table|);
    var r := ByCategory(table, category);
    if InCategory(table[i].device, category) {
      var k :| 0 <= k < |pos| && pos[k] == i;
      assert r[k] == Record(table[i]);
    } else {
      forall k | 0 <= k < |r| ensures r[k] != Record(table[i]) {
        assert InCategory(table[pos[k]].device, category);
      }
    }
  }

  /** A category no entry has yields the empty list. */
  lemma ByCategoryUnknown(table: seq<Entry>, category: string)
    requires forall i :: 0 <= i < |table| ==> !InCategory(table[i].device, category)
    ensures ByCategory(table, category) == []
  {
    MatchingNone(table, category, |table|);
  }

  lemma {:induction false} MatchingNone(table: seq<Entry>, category: string, n: nat)
    requires n <= |table|
    requires forall i :: 0 <= i < n ==> !InCategory(table[i].device, category)
    ensures Matching(table, category, n) == []
    decreases n
  {
    if n > 0 {
      MatchingNone(table, category, n - 1);
    }
  }

  /** The comparison ignores case on both sides. */
  lemma ByCategoryIgnoresCase(table: seq<Entry>, c1: string, c2: string)
    requires Strings.Lower(c1) == Strings.Lower(c2)
    ensures ByCategory(table, c1) == ByCategory(table, c2)
  {
    MatchingIgnoresCase(table, c1, c2, |table|);
  }

  lemma {:induction false} MatchingIgnoresCase(table: seq<Entry>, c1: string, c2: string, n: nat)
    requires n <= |table| && Strings.Lower(c1) == Strings.Lower(c2)
    ensures Matching(table, c1, n) == Matching(table, c2, n)
    decreases n
  {
    if n > 0 {
      MatchingIgnoresCase(table, c1, c2, n - 1);
      var d := table[n - 1].device;
      assert InCategory(d, c1) == InCategory(d, c2);
      assert Matching(table, c1, n) == Matching(table, c1, n - 1) + (if InCategory(d, c1) then [n - 1] else []);
      assert Matching(table, c2, n) == Matching(table, c2, n - 1) + (if InCategory(d, c2) then [n - 1] else []);
    }
  }

  // ---- stable sort ------------------------------------------------------------

  /** Ordered by the key, ascending. */
  ghost predicate SortedBy<T>(s: seq<T>, key: T -> int)
  {
    forall i, j :: 0 <= i < j < |s| ==> key(s[i]) <= key(s[j])
  }

  /** The elements of `s` whose key is `v`, in their order in `s`. */
  function WithKey<T>(s: seq<T>, key: T -> int, v: int): (r: seq<T>)
    ensures forall x :: x in r ==> x in s && key(x) == v
  {
    if s == [] then []
    else WithKey(s[..|s| - 1], key, v) + (if key(s[|s| - 1]) == v then [s[|s| - 1]] else [])
  }

  /** Where `x` goes: after the leading elements whose key is at most its own. */
  function InsertPoint<T>(s: seq<T>, x: T, key: T -> int): (n: nat)
    ensures n <= |s|
    ensures forall i :: 0 <= i < n ==> key(s[i]) <= key(x)
    ensures n < |s| ==> key(x) < key(s[n])
  {
    if s == [] || key(x) < key(s[0]) then 0
    else
      var n := 1 + InsertPoint(s[1..], x, key);
      assert forall i :: 1 <= i < n ==> s[i] == s[1..][i - 1];
      n
  }

  /** Puts `x` after every leading element whose key is at most its own. */
  function Insert<T>(s: seq<T>, x: T, key: T -> int): (r: seq<T>)
    ensures multiset(r) == multiset(s) + multiset{x}
  {
    var n := InsertPoint(s, x, key);
    assert s == s[..n] + s[n..];
    s[..n] + [x] + s[n..]
  }

  /**
   * `Array.prototype.sort` with a comparator whose sign is that of
   * key(a) - key(b).  The sort is stable, so its result is the one an
   * insertion sort that inserts each element after its equals produces.
   */
  function SortBy<T>(s: seq<T>, key: T -> int): (r: seq<T>)
    ensures |r| == |s|
    ensures multiset(r) == multiset(s)
  {
    if s == [] then []
    else
      assert s == s[..|s| - 1] + [s[|s| - 1]];
      Insert(SortBy(s[..|s| - 1], key), s[|s| - 1], key)
  }

  /** Where each element of s, and x, sits after the insertion. */
  lemma InsertAt<T>(s: seq<T>, x: T, key: T -> int)
    ensures var n, r := InsertPoint(s, x, key), Insert(s, x, key);
      && |r| == |s| + 1 && r[n] == x
      && (forall k :: 0 <= k < n ==> r[k] == s[k])
      && (forall k :: n < k < |r| ==> r[k] == s[k - 1])
  {
  }

  lemma InsertSorted<T>(s: seq<T>, x: T, key: T -> int)
    requires SortedBy(s, key)
    ensures SortedBy(Insert(s, x, key), key)
  {
    var n := InsertPoint(s, x, key);
    var r := Insert(s, x, key);
    InsertAt(s, x, key);
    forall i, j | 0 <= i < j < |r| ensures key(r[i]) <= key(r[j]) {
      if j < n {
        assert r[i] == s[i] && r[j] == s[j];
      } else if j == n {
        assert r[i] == s[i];
      } else if i < n {
        assert r[i] == s[i] && r[j] == s[j - 1];
      } else if i == n {
        assert r[j] == s[j - 1];
        assert key(s[n]) <= key(s[j - 1]);
      } else {
        assert r[i] == s[i - 1] && r[j] == s[j - 1];
      }
    }
  }

  /** The sort's result is ordered by the key. */
  lemma {:induction false} SortBySorted<T>(s: seq<T>, key: T -> int)
    ensures SortedBy(SortBy(s, key), key)
    decreases |s|
  {
    if s != [] {
      SortBySorted(s[..|s| - 1], key);
      InsertSorted(SortBy(s[..|s| - 1], key), s[|s| - 1], key);
    }
  }

  lemma {:induction false} WithKeyAppend<T>(a: seq<T>, b: seq<T>, key: T -> int, v: int)
    ensures WithKey(a + b, key, v) == WithKey(a, key, v) + WithKey(b, key, v)
    decreases |b|
  {
    if b == [] {
      assert a + b == a;
    } else {
      var b' := b[..|b| - 1];
      assert (a + b)[..|a + b| - 1] == a + b';
      WithKeyAppend(a, b', key, v);
    }
  }

  lemma WithKeyNone<T>(s: seq<T>, key: T -> int, v: int)
    requires forall i :: 0 <= i < |s| ==> key(s[i]) != v
    ensures WithKey(s, key, v) == []
  {
    var w := WithKey(s, key, v);
    assert forall k :: 0 <= k < |w| ==> w[k] in w;
  }

  /** Inserting adds x to the end of its key group and leaves the other groups alone. */
  lemma InsertWithKey<T>(s: seq<T>, x: T, key: T -> int, v: int)
    requires SortedBy(s, key)
    ensures WithKey(Insert(s, x, key), key, v) == WithKey(s, key, v) + WithKey([x], key, v)
  {
    if key(x) == v {
      InsertedLast(s, x, key, v);
    }
    InsertGroups(s, x, key, v);
  }

  /** The groups after an insertion, given that nothing of x's group follows its insertion point. */
  lemma InsertGroups<T>(s: seq<T>, x: T, key: T -> int, v: int)
    requires key(x) == v ==> WithKey(s[InsertPoint(s, x, key)..], key, v) == []
    ensures WithKey(Insert(s, x, key), key, v) == WithKey(s, key, v) + WithKey([x], key, v)
  {
    var n := InsertPoint(s, x, key);
    var a, b := s[..n], s[n..];
    assert s == a + b;
    assert Insert(s, x, key) == (a + [x]) + b;
    WithKeyAppend(a + [x], b, key, v);
    WithKeyAppend(a, [x], key, v);
    WithKeyAppend(a, b, key, v);
    var wa, wx, wb := WithKey(a, key, v), WithKey([x], key, v), WithKey(b, key, v);
    assert WithKey(Insert(s, x, key), key, v) == wa + wx + wb;
    assert WithKey(s, key, v) == wa + wb;
    if key(x) == v {
      assert wb == [];
      assert wa + wx + wb == wa + wx && wa + wb == wa;
    } else {
      NotInserted(a, b, x, key, v);
      assert WithKey(s, key, v) + wx == WithKey(s, key, v);
    }
  }

  /** Everything after the insertion point of an x with key v has a larger key. */
  lemma InsertedLast<T>(s: seq<T>, x: T, key: T -> int, v: int)
    requires SortedBy(s, key) && key(x) == v
    ensures WithKey(s[InsertPoint(s, x, key)..], key, v) == []
  {
    var n := InsertPoint(s, x, key);
    var b := s[n..];
    forall i | 0 <= i < |b| ensures key(b[i]) != v {
      assert b[i] == s[n + i];
      assert key(s[n]) <= key(s[n + i]);
    }
    WithKeyNone(b, key, v);
  }

  /** An x whose key is not v adds nothing to that key's group. */
  lemma NotInserted<T>(a: seq<T>, b: seq<T>, x: T, key: T -> int, v: int)
    requires key(x) != v
    ensures WithKey([x], key, v) == []
    ensures WithKey(a, key, v) + WithKey([x], key, v) + WithKey(b, key, v) == WithKey(a, key, v) + WithKey(b, key, v)
  {
    assert [x][..0] == [];
  }

  /**
   * Stability: for every key value, the elements with that key appear in the
   * result in the order they have in the input.
   */
  lemma {:induction false} SortByStable<T>(s: seq<T>, key: T -> int, v: int)
    ensures WithKey(SortBy(s, key), key, v) == WithKey(s, key, v)
    decreases |s|
  {
    if s != [] {
      var init, x := s[..|s| - 1], s[|s| - 1];
      assert s == init + [x];
      WithKeyAppend(init, [x], key, v);
      SortByStable(init, key, v);
      SortBySorted(init, key);
      InsertWithKey(SortBy(init, key), x, key, v);
    }
  }

  // ---- the two sorted queries --------------------------------------------------

  function ScreenSizeKey(r: DeviceRecord): int { r.device.screenSize }

  /** `b.year - a.year`: ascending in the negated year. */
  function YearKey(r: DeviceRecord): int { -r.device.year }

  /** getDevicesSortedByScreenSize. */
  function SortedByScreenSize(table: seq<Entry>): seq<DeviceRecord>
  {
    SortBy(Records(table), ScreenSizeKey)
  }

  /** getDevicesSortedByYear. */
  function SortedByYear(table: seq<Entry>): seq<DeviceRecord>
  {
    SortBy(Records(table), YearKey)
  }

  /**
   * getDevicesSortedByScreenSize returns every record exactly once, smallest
   * screen first, records of equal size in table order.
   */
  lemma ScreenSizeOrder(table: seq<Entry>)
    ensures multiset(SortedByScreenSize(table)) == multiset(Records(table))
    ensures forall i, j :: 0 <= i < j < |table| ==>
      SortedByScreenSize(table)[i].device.screenSize <= SortedByScreenSize(table)[j].device.screenSize
    ensures forall v :: WithKey(SortedByScreenSize(table), ScreenSizeKey, v) == WithKey(Records(table), ScreenSizeKey, v)
  {
    SortBySorted(Records(table), ScreenSizeKey);
    forall v ensures WithKey(SortedByScreenSize(table), ScreenSizeKey, v) == WithKey(Records(table), ScreenSizeKey, v) {
      SortByStable(Records(table), ScreenSizeKey, v);
    }
  }

  /**
   * getDevicesSortedByYear returns every record exactly once, newest first,
   * records of the same year in table order.
   */
  lemma YearOrder(table: seq<Entry>)
    ensures multiset(SortedByYear(table)) == multiset(Records(table))
    ensures forall i, j :: 0 <= i < j < |table| ==>
      SortedByYear(table)[i].device.year >= SortedByYear(table)[j].device.year
    ensures forall v :: WithKey(SortedByYear(table), YearKey, v) == WithKey(Records(table), YearKey, v)
  {
    SortBySorted(Records(table), YearKey);
    forall v ensures WithKey(SortedByYear(table), YearKey, v) == WithKey(Records(table), YearKey, v) {
      SortByStable(Records(table), YearKey, v);
    }
  }

  // ---- the tables ---------------------------------------------------------------

  const HisenseA9: Device := Device("Hisense A9", "Phone", 2022, "S$649", 610, "6.1\"", "1072 × 1448",
    "7 days", "163g", "4G, WiFi, Bluetooth", 80, 120,
    "E-ink smartphone with dual screens for extended battery life and outdoor readability.",
    [("Display", "6.1\" E-ink + 5.84\" Color OLED"), ("Resolution", "1072 × 1448 (E-ink), 2280 × 1080 (OLED)"),
     ("Battery", "4070mAh"), ("OS", "Android 10"), ("Storage", "128GB"), ("RAM", "6GB")],
    ["Dual screen design", "Always-on E-ink display", "4G connectivity", "Fingerprint sensor"])

  const LightPhone3: Device := Device("Light Phone 3", "Phone", 2024, "S$449", 320, "3.2\"", "480 × 800",
    "5 days", "89g", "4G, WiFi", 60, 100,
    "Minimalist e-ink phone designed to reduce screen time while maintaining essential connectivity.",
    [("Display", "3.2\" E-ink"), ("Resolution", "480 × 800"), ("Battery", "1500mAh"), ("OS", "Light OS"),
     ("Connectivity", "4G, Wi-Fi"), ("Weight", "89g")],
    ["Minimalist design", "Essential apps only", "Week-long battery", "Distraction-free experience"])

  const DasungPaperlike: Device := Device("Dasung Paperlike HD-FT", "Monitor", 2021, "S$2,899", 2530, "25.3\"", "3200 × 1800",
    "N/A (Plugged)", "4.2kg", "USB-C, HDMI", 200, 150,
    "25.3\" e-ink monitor with front light for comfortable reading and reduced eye strain during long work sessions.",
    [("Display", "25.3\" E-ink"), ("Resolution", "3200 × 1800"), ("Refresh Rate", "1-10Hz"),
     ("Connectivity", "USB-C, HDMI"), ("Front Light", "Adjustable warm/cool"), ("Weight", "4.2kg")],
    ["Front light technology", "Eye strain reduction", "Programming friendly", "Multiple connectivity options"])

  const BooxMira: Device := Device("BOOX Mira Pro", "Monitor", 2023, "S$2,599", 2530, "25.3\"", "3200 × 1800",
    "N/A (Plugged)", "3.8kg", "USB-C", 200, 150,
    "25.3\" e-ink monitor with USB-C connectivity and adjustable refresh rates for programming and writing.",
    [("Display", "25.3\" E-ink Carta"), ("Resolution", "3200 × 1800"), ("Refresh Rate", "Variable 1-15Hz"),
     ("Connectivity", "USB-C (single cable)"), ("Compatibility", "Windows, macOS, Linux"), ("Weight", "3.8kg")],
    ["Single USB-C connection", "Variable refresh rates", "Cross-platform support", "Lightweight design"])

  const Remarkable2: Device := Device("reMarkable 2", "Tablet", 2020, "S$599", 1030, "10.3\"", "1872 × 1404",
    "2 weeks", "403g", "WiFi, USB-C", 140, 180,
    "Paper-like writing tablet with exceptional pen-to-paper feel for note-taking and document annotation.",
    [("Display", "10.3\" E-ink Carta"), ("Resolution", "1872 × 1404"), ("Thickness", "4.7mm"),
     ("Weight", "403g"), ("Battery", "2 weeks"), ("Storage", "8GB")],
    ["Paper-like writing experience", "Ultra-thin design", "Cloud synchronization", "PDF annotation"])

  const InkcaseI7: Device := Device("InkCase i7 Plus", "Phone Case", 2020, "S$199", 430, "4.3\"", "800 × 600",
    "2-3 weeks", "+45g", "Bluetooth", 80, 120,
    "E-ink secondary display case for iPhone with customizable widgets and notifications.",
    [("Display", "4.3\" E-ink"), ("Resolution", "800 × 600"), ("Compatibility", "iPhone 7/8 Plus"),
     ("Battery", "2-3 weeks"), ("Thickness", "+2mm"), ("Weight", "+45g")],
    ["Secondary e-ink display", "Customizable widgets", "Always-on notifications", "Minimal thickness added"])

  const PebbleTime: Device := Device("Pebble Time", "Smartwatch", 2015, "S$199 (discontinued)", 125, "1.25\"", "144 × 168",
    "7 days", "42.5g", "Bluetooth", 30, 40,
    "Color e-paper smartwatch with week-long battery life and always-on display.",
    [("Display", "1.25\" Color E-paper"), ("Resolution", "144 × 168"), ("Battery", "7 days"),
     ("Water Rating", "30m"), ("Compatibility", "iOS, Android"), ("Weight", "42.5g")],
    ["Color e-paper display", "Week-long battery", "Always-on screen", "Timeline interface", "Water resistant"])

  const KindleOasis: Device := Device("Kindle Oasis", "E-reader", 2019, "S$429", 700, "7\"", "1680 × 1264",
    "6 weeks", "188g", "WiFi, 4G (optional)", 100, 140,
    "Premium e-reader with adjustable warm light and physical page turn buttons for comfortable reading.",
    [("Display", "7\" E-ink Carta"), ("Resolution", "1680 × 1264 (300 PPI)"), ("Storage", "8GB/32GB"),
     ("Battery", "6 weeks"), ("Water Rating", "IPX8"), ("Weight", "188g")],
    ["Adjustable warm light", "Physical page turn buttons", "Waterproof design", "Premium materials", "Auto-rotating display"])

  const BooxP6: Device := Device("Boox P6", "E-reader", 2023, "S$299", 600, "6\"", "1072 × 1448",
    "4 weeks", "155g", "WiFi, Bluetooth", 90, 130,
    "Compact Android e-reader with versatile app support and excellent build quality.",
    [("Display", "6\" E-ink Carta"), ("Resolution", "1072 × 1448 (300 PPI)"), ("OS", "Android 11"),
     ("Storage", "32GB"), ("RAM", "2GB"), ("Weight", "155g")],
    ["Android app support", "Compact design", "Long battery life", "PDF annotation", "Note-taking capability"])

  const IreaderTango: Device := Device("iReader Tango", "E-reader", 2022, "S$199", 600, "6\"", "1024 × 758",
    "5 weeks", "142g", "WiFi", 88, 125,
    "Budget-friendly e-reader focused on reading experience with optimized Chinese language support.",
    [("Display", "6\" E-ink"), ("Resolution", "1024 × 758"), ("OS", "Custom Linux"),
     ("Storage", "16GB"), ("Battery", "1500mAh"), ("Weight", "142g")],
    ["Affordable price", "Optimized reading", "Chinese language support", "Lightweight design", "Simple interface"])

  const Obook5: Device := Device("Obook5", "Tablet", 2024, "S$799", 1030, "10.3\"", "1872 × 1404",
    "3 weeks", "380g", "WiFi, Bluetooth, USB-C", 150, 190,
    "Premium note-taking tablet with advanced pen technology and seamless cloud integration.",
    [("Display", "10.3\" E-ink Carta"), ("Resolution", "1872 × 1404"), ("OS", "Android 12"),
     ("Storage", "64GB"), ("RAM", "4GB"), ("Weight", "380g")],
    ["Premium pen experience", "Cloud synchronization", "Android apps", "Fast refresh rate", "Professional build quality"])

  const XteinkX4: Device := Device("XTEINK X4", "Tablet", 2023, "S$599", 1030, "10.3\"", "1872 × 1404",
    "2 weeks", "420g", "WiFi, USB-C", 145, 185,
    "Affordable note-taking tablet with solid performance and good value for money.",
    [("Display", "10.3\" E-ink"), ("Resolution", "1872 × 1404"), ("OS", "Android 11"),
     ("Storage", "32GB"), ("RAM", "3GB"), ("Weight", "420g")],
    ["Budget-friendly", "Good pen support", "Basic Android apps", "Decent build quality", "Value for money"])

  /** DEVICE_DATA, in its key order. */
  const DeviceData: seq<Entry> := [
    Entry("hisense-a9", HisenseA9),
    Entry("light-phone-3", LightPhone3),
    Entry("dasung-paperlike", DasungPaperlike),
    Entry("boox-mira", BooxMira),
    Entry("remarkable-2", Remarkable2),
    Entry("inkcase-i7", InkcaseI7),
    Entry("pebble-time", PebbleTime),
    Entry("kindle-oasis", KindleOasis),
    Entry("boox-p6", BooxP6),
    Entry("ireader-tango", IreaderTango),
    Entry("obook5", Obook5),
    Entry("xteink-x4", XteinkX4)
  ]

  /** One entry of FEATURED_COMPARISONS. */
  datatype Comparison = Comparison(key: string, device1: string, device2: string, title: string, description: string)

  const FeaturedComparisons: seq<Comparison> := [
    Comparison("boox-p6-vs-ireader-tango", "boox-p6", "ireader-tango", "Boox P6 vs iReader Tango",
      "Compact e-readers face-off: Android versatility versus optimized reading experience."),
    Comparison("obook5-vs-xteink-x4", "obook5", "xteink-x4", "Obook5 vs XTEINK X4",
      "Note-taking tablets showdown: Premium features versus affordable functionality.")
  ]

  /** Every device a featured comparison names is a key of the device table. */
  lemma ComparisonsNameKnownDevices()
    ensures forall c :: c in FeaturedComparisons ==>
      c.device1 in Keys(DeviceData) && c.device2 in Keys(DeviceData)
  {
    var ks := Keys(DeviceData);
    assert ks[8] == "boox-p6" && ks[9] == "ireader-tango";
    assert ks[10] == "obook5" && ks[11] == "xteink-x4";
  }

  /** The keys of the device table are distinct, as an object's keys are. */
  lemma DeviceKeysDistinct()
    ensures forall i, j :: 0 <= i < j < |DeviceData| ==> Keys(DeviceData)[i] != Keys(DeviceData)[j]
  {
  }
}
