/** The resource string of a job, such as `C:4,M:1024,G/gpu:2`, and the dictionary read from it. */
module Tres {
  import opened Wrappers

  // ----- The code of a gres key -----

  predicate InGSlash(c: char) {
    c == 'G' || c == '/'
  }

  function LStrip(s: string): string {
    if s != "" && InGSlash(s[0]) then LStrip(s[1..]) else s
  }

  function RStrip(s: string): string {
    if s != "" && InGSlash(s[|s| - 1]) then RStrip(s[..|s| - 1]) else s
  }

  /** `key.strip('G/')`: characters are stripped from both ends, not a prefix. */
  function GresKey(key: string): string {
    RStrip(LStrip(key))
  }

  lemma {:induction false} LStripLength(s: string)
    ensures |LStrip(s)| <= |s| && (|LStrip(s)| == |s| ==> LStrip(s) == s)
    ensures |RStrip(s)| <= |s| && (|RStrip(s)| == |s| ==> RStrip(s) == s)
  {
    if s != "" && InGSlash(s[0]) {
      LStripLength(s[1..]);
    }
    if s != "" && InGSlash(s[|s| - 1]) {
      LStripLength(s[..|s| - 1]);
    }
  }

  /** Neither begins nor ends with a `G` or a slash. */
  predicate Kept(code: string) {
    code == "" || (!InGSlash(code[0]) && !InGSlash(code[|code| - 1]))
  }

  /** The code after `G/` survives exactly if it neither begins nor ends with a `G` or a slash. */
  lemma GresKeyKeepsCode(code: string)
    ensures GresKey("G/" + code) == code <==> Kept(code)
  {
    assert ("G/" + code)[1..] == "/" + code && ("/" + code)[1..] == code;
    assert LStrip("G/" + code) == LStrip("/" + code) == LStrip(code);
    LStripLength(code);
    LStripLength(LStrip(code));
    if code != "" {
      LStripLength(code[1..]);
      LStripLength(code[..|code| - 1]);
    }
  }

  /** Concretely: a code that ends in `G` or `/`, or begins so, loses letters. */
  lemma CodesLost()
    ensures GresKey("G/GPU") == "PU" && GresKey("G/a100/") == "a100"
  {
    var a, b := "G/GPU", "G/a100/";
    assert a[1..] == "/GPU" && "/GPU"[1..] == "GPU" && "GPU"[1..] == "PU";
    assert LStrip(a) == LStrip("/GPU") == LStrip("GPU") == LStrip("PU") == "PU";
    assert b[1..] == "/a100/" && "/a100/"[1..] == "a100/";
    assert LStrip(b) == LStrip("/a100/") == LStrip("a100/") == "a100/";
    assert "a100/"[..4] == "a100";
    assert RStrip("a100/") == RStrip("a100") == "a100";
  }

  // ----- The dictionary -----

  datatype TresError = BadItem | BadNumber | NotADictionary

  /** Plain counts, and gres counts by code; a plain count under the key `G` replaces the gres counts. */
  datatype Counts = Counts(plain: map<string, real>, gres: map<string, real>)

  const GRES := "G"

  /** `float(value)`, where `None` is its exception. */
  type Float = string -> Option<real>

  function AddPair(float: Float, d: Counts, key: string, value: string): Result<Counts, TresError> {
    match float(value)
    case None => Err(BadNumber)
    case Some(x) =>
      if "G/" <= key then
        if GRES in d.plain then Err(NotADictionary) else Ok(d.(gres := d.gres[GresKey(key) := x]))
      else Ok(d.(plain := d.plain[key := x]))
  }

  function AddItem(float: Float, d: Counts, item: string): Result<Counts, TresError> {
    var parts := Split(item, ':');
    if |parts| != 2 then Err(BadItem) else AddPair(float, d, parts[0], parts[1])
  }

  function AddItems(float: Float, items: seq<string>): Result<Counts, TresError> {
    if items == [] then Ok(Counts(map[], map[]))
    else
      match AddItems(float, items[..|items| - 1])
      case Err(e) => Err(e)
      case Ok(d) => AddItem(float, d, items[|items| - 1])
  }

  function Parsed(float: Float, text: string): Result<Counts, TresError> {
    AddItems(float, if text == "" then [] else Split(text, ','))
  }

  lemma {:induction false} ErrorStays(float: Float, items: seq<string>, k: nat)
    requires k <= |items| && AddItems(float, items[..k]).Err?
    ensures AddItems(float, items) == AddItems(float, items[..k])
  {
    if k == |items| {
      assert items[..k] == items;
    } else {
      var n := |items| - 1;
      assert items[..n][..k] == items[..k];
      ErrorStays(float, items[..n], k);
    }
  }

  /** `_get_tres_dict`. */
  method GetTresDict(float: Float, text: string) returns (r: Result<Counts, TresError>)
    ensures r == Parsed(float, text)
  {
    hide AddPair, GresKey;
    var plain, gres: map<string, real> := map[], map[];
    if text != "" {
      var items := Split(text, ',');
      for i := 0 to |items|
        invariant AddItems(float, items[..i]) == Ok(Counts(plain, gres))
      {
        assert items[..i + 1][..i] == items[..i];
        var added := AddItem(float, Counts(plain, gres), items[i]);
        if added.Err? {
          ErrorStays(float, items, i + 1);
          return added;
        }
        plain, gres := added.value.plain, added.value.gres;
      }
      assert items[..|items|] == items;
    }
    return Ok(Counts(plain, gres));
  }

  // ----- Reading back what was written -----

  /** A count as it is written down: the text of its key and of its number. */
  datatype Entry = Core(key: string, value: string) | Gres(code: string, value: string) {
    function Key(): string {
      if Core? then key else "G/" + code
    }

    /** No separator in key or number, and a plain key is not taken for a gres. */
    predicate Writable() {
      && ',' !in Key() && ':' !in Key() && ',' !in value && ':' !in value
      && (Core? ==> key != GRES && !("G/" <= key))
    }
  }

  function Item(e: Entry): string {
    e.Key() + ":" + e.value
  }

  function Joined(items: seq<string>): string
    requires items != []
  {
    if |items| == 1 then items[0] else items[0] + "," + Joined(items[1..])
  }

  function Items(es: seq<Entry>): (items: seq<string>)
    ensures |items| == |es|
  {
    seq(|es|, i requires 0 <= i < |es| => Item(es[i]))
  }

  function Written(es: seq<Entry>): string {
    if es == [] then "" else Joined(Items(es))
  }

  function Value(float: Float, e: Entry): real {
    match float(e.value) case Some(x) => x case None => 0.0
  }

  /** What the string is meant to say: later entries win. */
  function Meant(float: Float, es: seq<Entry>): Counts {
    if es == [] then Counts(map[], map[])
    else
      var d, e := Meant(float, es[..|es| - 1]), es[|es| - 1];
      match e
      case Core(key, _) => d.(plain := d.plain[key := Value(float, e)])
      case Gres(code, _) => d.(gres := d.gres[code := Value(float, e)])
  }

  predicate AllKept(es: seq<Entry>) {
    forall i :: 0 <= i < |es| && es[i].Gres? ==> Kept(es[i].code)
  }

  predicate AllWritable(float: Float, es: seq<Entry>) {
    forall i :: 0 <= i < |es| ==> es[i].Writable() && float(es[i].value).Some?
  }

  lemma {:induction false} SplitOnce(a: string, c: char, rest: string)
    requires c !in a
    ensures Split(a + [c] + rest, c) == [a] + Split(rest, c)
  {
    var s := a + [c] + rest;
    assert s[|a|] == c;
    assert forall j :: 0 <= j < |a| ==> s[j] == a[j];
    assert IndexOf(s, c) == |a|;
    assert s[..|a|] == a && s[|a| + 1..] == rest;
  }

  lemma {:induction false} SplitNever(a: string, c: char)
    requires c !in a
    ensures Split(a, c) == [a]
  {
    assert IndexOf(a, c) == |a|;
  }

  lemma {:induction false} SplitJoined(items: seq<string>)
    requires items != [] && forall i :: 0 <= i < |items| ==> ',' !in items[i]
    ensures Split(Joined(items), ',') == items
  {
    if |items| == 1 {
      SplitNever(items[0], ',');
    } else {
      SplitJoined(items[1..]);
      SplitOnce(items[0], ',', Joined(items[1..]));
    }
  }

  lemma ItemSplits(e: Entry)
    requires e.Writable()
    ensures Split(Item(e), ':') == [e.Key(), e.value] && ',' !in Item(e) && Item(e) != ""
  {
    SplitOnce(e.Key(), ':', e.value);
    SplitNever(e.value, ':');
  }

  /** The entries, every gres under its stripped key. */
  function Stripped(es: seq<Entry>): seq<Entry> {
    seq(|es|, i requires 0 <= i < |es| =>
      if es[i].Gres? then Gres(GresKey("G/" + es[i].code), es[i].value) else es[i])
  }

  lemma {:induction false} ReadsStripped(float: Float, es: seq<Entry>)
    requires AllWritable(float, es)
    ensures AddItems(float, Items(es)) == Ok(Meant(float, Stripped(es)))
    ensures GRES !in Meant(float, Stripped(es)).plain
  {
    hide GresKey, Split;
    if es != [] {
      var n := |es| - 1;
      assert Items(es)[..n] == Items(es[..n]) && Stripped(es)[..n] == Stripped(es[..n]);
      ReadsStripped(float, es[..n]);
      ItemSplits(es[n]);
    }
  }

  lemma ParsedStripped(float: Float, es: seq<Entry>)
    requires AllWritable(float, es)
    ensures Parsed(float, Written(es)) == Ok(Meant(float, Stripped(es)))
  {
    ReadsStripped(float, es);
    if es != [] {
      forall i | 0 <= i < |es|
        ensures ',' !in Items(es)[i] && Items(es)[i] != ""
      {
        ItemSplits(es[i]);
      }
      SplitJoined(Items(es));
      assert Joined(Items(es)) != "";
    }
  }

  lemma {:induction false} CodesMeant(float: Float, es: seq<Entry>, code: string)
    ensures code in Meant(float, es).gres <==> exists i :: 0 <= i < |es| && es[i].Gres? && es[i].code == code
  {
    if es != [] {
      var n := |es| - 1;
      CodesMeant(float, es[..n], code);
      assert forall i :: 0 <= i < n ==> es[..n][i] == es[i];
    }
  }

  /**
   * A written resource string is read back as it was meant exactly if no gres code begins or ends with a
   * `G` or a slash.
   */
  lemma {:induction false} TresRoundTrip(float: Float, es: seq<Entry>)
    requires AllWritable(float, es)
    ensures Parsed(float, Written(es)) == Ok(Meant(float, es)) <==> AllKept(es)
  {
    hide GresKey, Written;
    ParsedStripped(float, es);
    if AllKept(es) {
      forall i | 0 <= i < |es|
        ensures Stripped(es)[i] == es[i]
      {
        if es[i].Gres? { GresKeyKeepsCode(es[i].code); }
      }
      assert Stripped(es) == es;
    } else {
      var i :| 0 <= i < |es| && es[i].Gres? && !Kept(es[i].code);
      CodesMeant(float, es, es[i].code);
      CodesMeant(float, Stripped(es), es[i].code);
      forall j | 0 <= j < |es| && es[j].Gres?
        ensures Stripped(es)[j].code != es[i].code
      {
        KeysAreKept("G/" + es[j].code);
      }
    }
  }

  lemma {:induction false} StripsKeep(s: string)
    ensures RStrip(s) != "" ==> !InGSlash(RStrip(s)[|RStrip(s)| - 1]) && RStrip(s)[0] == s[0]
    ensures LStrip(s) != "" ==> !InGSlash(LStrip(s)[0])
  {
    if s != "" && InGSlash(s[0]) { StripsKeep(s[1..]); }
    if s != "" && InGSlash(s[|s| - 1]) { StripsKeep(s[..|s| - 1]); }
  }

  /** What stripping leaves neither begins nor ends with a `G` or a slash. */
  lemma KeysAreKept(key: string)
    ensures Kept(GresKey(key))
  {
    StripsKeep(key);
    StripsKeep(LStrip(key));
  }

  // ----- Which strings are read at all -----

  /** A key, one colon and a number. */
  predicate ItemReads(float: Float, item: string) {
    |Split(item, ':')| == 2 && float(Split(item, ':')[1]).Some?
  }

  function KeyOf(item: string): string {
    if |Split(item, ':')| == 2 then Split(item, ':')[0] else ""
  }

  /** A plain count under the key of the gres counts comes before a gres count. */
  predicate Overwritten(items: seq<string>) {
    exists i, j :: 0 <= i < j < |items| && KeyOf(items[i]) == GRES && "G/" <= KeyOf(items[j])
  }

  predicate AllRead(float: Float, items: seq<string>) {
    forall i :: 0 <= i < |items| ==> ItemReads(float, items[i])
  }

  predicate SomePlainG(items: seq<string>) {
    exists i :: 0 <= i < |items| && KeyOf(items[i]) == GRES
  }

  /** One item more. */
  lemma ItemsMore(float: Float, items: seq<string>, item: string)
    ensures AllRead(float, items + [item]) <==> AllRead(float, items) && ItemReads(float, item)
    ensures SomePlainG(items + [item]) <==> SomePlainG(items) || KeyOf(item) == GRES
    ensures Overwritten(items + [item]) <==> Overwritten(items) || (SomePlainG(items) && "G/" <= KeyOf(item))
  {
    hide ItemReads, KeyOf;
    var more, n := items + [item], |items|;
    assert more[n] == item && forall i :: 0 <= i < n ==> more[i] == items[i];
    if Overwritten(items) {
      var i, j :| 0 <= i < j < n && KeyOf(items[i]) == GRES && "G/" <= KeyOf(items[j]);
      assert KeyOf(more[i]) == GRES && "G/" <= KeyOf(more[j]);
    }
    if SomePlainG(items) {
      var i :| 0 <= i < n && KeyOf(items[i]) == GRES;
      assert KeyOf(more[i]) == GRES;
    }
  }

  lemma ItemAdded(float: Float, d: Counts, item: string)
    ensures AddItem(float, d, item).Ok? <==> ItemReads(float, item) && !(GRES in d.plain && "G/" <= KeyOf(item))
    ensures AddItem(float, d, item).Ok? ==>
              (GRES in AddItem(float, d, item).value.plain <==> GRES in d.plain || KeyOf(item) == GRES)
  {
    hide GresKey, Split;
    KeysDiffer(item);
  }

  lemma {:induction false} ItemsRead(float: Float, items: seq<string>)
    ensures AddItems(float, items).Ok? <==> AllRead(float, items) && !Overwritten(items)
    ensures AddItems(float, items).Ok? ==> (GRES in AddItems(float, items).value.plain <==> SomePlainG(items))
  {
    hide AddItem, ItemReads, KeyOf;
    if items != [] {
      var n := |items| - 1;
      assert items == items[..n] + [items[n]];
      ItemsRead(float, items[..n]);
      hide AllRead, Overwritten, SomePlainG;
      ItemsMore(float, items[..n], items[n]);
      match AddItems(float, items[..n])
      case Err(_) =>
      case Ok(d) => ItemAdded(float, d, items[n]);
    }
  }

  lemma KeysDiffer(item: string)
    ensures !(KeyOf(item) == GRES && "G/" <= KeyOf(item))
  {
  }

  /** A string is read exactly if every item is a key and a number, and no plain `G` comes before a gres. */
  lemma {:induction false} TresReads(float: Float, text: string)
    requires text != ""
    ensures Parsed(float, text).Ok?
            <==> AllRead(float, Split(text, ',')) && !Overwritten(Split(text, ','))
  {
    ItemsRead(float, Split(text, ','));
  }
}
