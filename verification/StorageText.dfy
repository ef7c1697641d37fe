/** The text under which an ad is stored: an ad of its own, with the key and the ad as attributes,
    printed on one line and parsed to be read back. */
module StorageText {
  import opened Text
  import opened Expressions
  import opened Members
  import opened Tokens
  import opened Grammar
  import opened Printing
  import opened Escapes
  import opened Decimal
  import opened Lexing
  import opened Rendering
  import TextRoundTrip
  import opened StorageLines
  import opened Caches

  // ---------------------------------------------------------------- one line

  predicate OneLine(s: string) {
    '\n' !in s
  }

  lemma {:induction false} EscapedOnOneLine(s: string, quote: char)
    requires IsQuote(quote) && IsText(s)
    ensures OneLine(Escape(s, quote))
  {
    if s != "" {
      EscapedOnOneLine(s[1..], quote);
      EscapedChar(s[0], quote);
    }
  }

  lemma EscapedChar(c: char, quote: char)
    requires IsQuote(quote) && 0 < c as int < 256
    ensures OneLine(EscapeChar(c, quote))
  {
  }

  lemma NameOnOneLine(name: string)
    requires IsText(name)
    ensures OneLine(NameText(name))
  {
    hide Escape;
    hide NeedsQuoting;
    EscapedOnOneLine(name, '\'');
  }

  lemma {:induction false} WordOnOneLine(s: string)
    requires WordLength(s) == |s|
    ensures OneLine(s)
  {
    if s != "" {
      WordOnOneLine(s[1..]);
      assert s == [s[0]] + s[1..];
    }
  }

  lemma DigitsOnOneLine(n: nat)
    ensures OneLine(Numeral(n))
  {
    hide Numeral;
    var s := Numeral(n);
    assert forall i :: 0 <= i < |s| ==> IsDigit(s[i]);
  }

  lemma ValueOnOneLine(v: Value)
    requires SpellableValue(v)
    ensures OneLine(ValueText(v))
  {
    hide Escape;
    hide Numeral;
    match v
    case Int(i) => DigitsOnOneLine(if i < 0 then -i else i);
    case Str(s) => EscapedOnOneLine(s, '"');
    case _ =>
  }

  lemma SymbolsOnOneLine(op: BinaryOp, uop: UnaryOp)
    ensures OneLine(OpSymbol(op)) && OneLine(UnarySymbol(uop))
  {
  }

  /** The text of an expression never contains a line break. */
  lemma {:induction false} TextOnOneLine(e: Expr)
    requires Spellable(e)
    ensures OneLine(TextOf(e))
    decreases e, 1
  {
    hide NameText;
    hide ValueText;
    hide OpSymbol;
    hide UnarySymbol;
    match e
    case Literal(v) => ValueOnOneLine(v);
    case Ref(name, _) => NameOnOneLine(name);
    case Select(base, attr) =>
      TextOnOneLine(base);
      WordOnOneLine(attr);
    case Unary(op, arg) =>
      TextOnOneLine(arg);
      SymbolsOnOneLine(Add, op);
    case Binary(op, l, r) =>
      TextOnOneLine(l);
      TextOnOneLine(r);
      SymbolsOnOneLine(op, UnaryPlus);
    case Ternary(c, t, f) =>
      TextOnOneLine(c);
      TextOnOneLine(t);
      TextOnOneLine(f);
    case Call(fn, args) =>
      WordOnOneLine(fn);
      ItemsOnOneLine(args);
    case ExprList(elems) => ItemsOnOneLine(elems);
    case Ad(attrs) => AttributesOnOneLine(attrs);
  }

  lemma {:induction false} ItemsOnOneLine(es: seq<Expr>)
    requires forall i :: 0 <= i < |es| ==> Spellable(es[i])
    ensures OneLine(ItemsText(es))
    decreases es, 0
  {
    hide TextOf;
    if es != [] {
      TextOnOneLine(es[0]);
      ItemsOnOneLine(es[1..]);
    }
  }

  lemma {:induction false} AttributesOnOneLine(attrs: seq<Attr>)
    requires forall i :: 0 <= i < |attrs| ==> GoodName(attrs[i].name) && Spellable(attrs[i].expr)
    ensures OneLine(AttributesText(attrs))
    decreases attrs, 0
  {
    hide TextOf;
    hide NameText;
    if attrs != [] {
      TextOnOneLine(attrs[0].expr);
      NameOnOneLine(attrs[0].name);
      AttributesOnOneLine(attrs[1..]);
    }
  }

  // --------------------------------------------------------------- the entry

  function Entry(key: Key, ad: seq<Attr>): (e: Expr) {
    Expr.Ad([Attr("Key", Literal(Str(key))), Attr("Ad", Expr.Ad(ad))])
  }

  /** The attributes of the ad a text denotes; none if it is not the text of an ad. */
  function EntryAttributes(text: string): (r: seq<Attr>) {
    var p := ParseExpression(Lex(EndOfInput, text));
    if p.Parse? && p.tree.Ad? then p.tree.attrs else []
  }

  function EntryKey(text: string): (key: Key) {
    var v := Lookup(EntryAttributes(text), "Key");
    if v.Some? && v.value.Literal? && v.value.value.Str? then v.value.value.s else ""
  }

  function EntryAd(text: string): (ad: seq<Attr>) {
    var v := Lookup(EntryAttributes(text), "Ad");
    if v.Some? && v.value.Ad? then v.value.attrs else []
  }

  /** Keys and ads whose text is read back token by token. */
  predicate Storable(key: Key, ad: seq<Attr>) {
    IsText(key) && WellFormed(Expr.Ad(ad)) && Spellable(Expr.Ad(ad))
  }

  function TextCodec(): (codec: Codec) {
    Codec(text => EntryKey(text), (key, ad) => TextOf(Entry(key, ad)), text => EntryAd(text),
          (key, ad) => Storable(key, ad))
  }

  lemma EntryNames()
    ensures GoodName("Key") && GoodName("Ad") && !SameName("Key", "Ad") && !SameName("Ad", "Key")
  {
    EntryName("Key", 'k', 3);
    EntryName("Ad", 'a', 2);
  }

  /** A short word is not reserved if it starts differently. */
  lemma EntryName(name: string, first: char, length: nat)
    requires (name == "Key" && first == 'k' && length == 3) || (name == "Ad" && first == 'a' && length == 2)
    ensures GoodName(name) && |Fold(name)| == length
  {
    assert Fold(name)[0] == first;
    assert forall i :: 0 <= i < |name| ==> 0 < name[i] as int < 256;
    assert "is"[0] == 'i';
  }

  lemma EntrySpellable(key: Key, ad: seq<Attr>)
    requires Storable(key, ad)
    ensures WellFormed(Entry(key, ad)) && Spellable(Entry(key, ad))
  {
    hide GoodName;
    hide SameName;
    EntryNames();
    var k, a := Literal(Str(key)), Expr.Ad(ad);
    var attrs := [Attr("Key", k), Attr("Ad", a)];
    assert WellFormed(k) && Spellable(k);
    assert forall i :: 0 <= i < 2 ==> attrs[i].name != "";
  }

  lemma EntryFound(key: Key, ad: seq<Attr>)
    ensures Lookup(Entry(key, ad).attrs, "Key") == Some(Literal(Str(key)))
    ensures Lookup(Entry(key, ad).attrs, "Ad") == Some(Expr.Ad(ad))
  {
    hide Fold;
    EntryNames();
    var attrs := Entry(key, ad).attrs;
    assert attrs[1..] == [attrs[1]];
  }

  /** The library's own printer, lexer and parser store ads faithfully: every storable key and ad is
      written as one live line, and read back as it was. */
  lemma TextCodecFaithful()
    ensures Faithful(TextCodec())
  {
    hide Storable;
    hide TextOf;
    hide Entry;
    hide EntryKey;
    hide EntryAd;
    var codec := TextCodec();
    forall k, a | codec.storable(k, a) ensures Writes(codec, k, a, codec.textOf(k, a)) {
      EntryReadBack(k, a);
    }
  }

  lemma EntryReadBack(key: Key, ad: seq<Attr>)
    requires Storable(key, ad)
    ensures var text := TextOf(Entry(key, ad));
            GoodLine(text) && IsLive(text) && EntryKey(text) == key && EntryAd(text) == ad
  {
    hide Lex;
    hide ParseExpression;
    hide Lookup;
    hide AttributesText;
    hide WellFormed;
    hide Spellable;
    var e := Entry(key, ad);
    EntrySpellable(key, ad);
    TextOnOneLine(e);
    TextRoundTrip.ParseOfText(e);
    EntryFound(key, ad);
    assert TextOf(e)[0] == '[';
  }
}
