/**
 * The LINE Flex Message that shows bear images: one bubble per image, each
 * with the image as its hero and a link that shares the image on X.
 */
module LineMessage {
  import opened Wrappers
  import opened Strings
  import opened Seqs
  import opened PercentEncoding

  /** At most this many images are shown. */
  const MaxItems: nat := 10

  /** The alternative text used when the caller passes none. */
  const DefaultAltText: string := "クマ画像です"

  /** The bubble's title and the share link's label. */
  const Title: string := "キロクマ"
  const ShareLabel: string := "Xでシェア"

  /** The shared text 今日のキロクマです！ as `encodeURIComponent` writes it. */
  const EncodedShareText: string := "%E4%BB%8A%E6%97%A5%E3%81%AE%E3%82%AD%E3%83%AD%E3%82%AF%E3%83%9E%E3%81%A7%E3%81%99%EF%BC%81"

  /** Everything of the share link before the encoded image URL. */
  const ShareBase: string := "https://x.com/intent/post?text=" + EncodedShareText + "&url="

  /** The parts of a bubble that depend on its image, and its fixed texts. */
  datatype Bubble = Bubble(heroUrl: string, title: string, shareLabel: string, shareUri: string)

  /** A single bubble, or a carousel of bubbles. */
  datatype FlexContents = Single(bubble: Bubble) | Carousel(bubbles: seq<Bubble>)

  datatype FlexMessage = FlexMessage(altText: string, contents: FlexContents)

  /** The bubbles a message shows, in order. */
  function Bubbles(c: FlexContents): seq<Bubble>
  {
    match c
    case Single(b) => [b]
    case Carousel(bs) => bs
  }

  /** The X intent link sharing `url` with the fixed text. */
  function ShareUri(url: string): string
  {
    ShareBase + EncodeURIComponent(url)
  }

  /** The bubble of one image URL. */
  function BubbleFor(url: string): Bubble
  {
    Bubble(url, Title, ShareLabel, ShareUri(url))
  }

  /** `urls.map(...)`: one bubble per URL, in order. */
  function BubblesFor(urls: seq<string>): (bs: seq<Bubble>)
    ensures |bs| == |urls| && forall i :: 0 <= i < |urls| ==> bs[i] == BubbleFor(urls[i])
  {
    seq(|urls|, i requires 0 <= i < |urls| => BubbleFor(urls[i]))
  }

  /**
   * `buildBearFlexMessage`: the first ten URLs, one bubble each in input
   * order; exactly one URL gives that bubble alone, any other count
   * (including none) a carousel.
   */
  function BuildBearFlexMessage(imageUrls: seq<string>, altText: string := DefaultAltText): (m: FlexMessage)
    ensures m.altText == altText
    ensures |Bubbles(m.contents)| == if |imageUrls| < MaxItems then |imageUrls| else MaxItems
    ensures forall i :: 0 <= i < |Bubbles(m.contents)| ==> Bubbles(m.contents)[i] == BubbleFor(imageUrls[i])
    ensures m.contents.Single? <==> |imageUrls| == 1
  {
    var urls := Take(imageUrls, MaxItems);
    var bubbles := BubblesFor(urls);
    FlexMessage(altText, if |urls| == 1 then Single(bubbles[0]) else Carousel(bubbles))
  }

  /** A message built without an alternative text carries the default one. */
  lemma DefaultAlt(imageUrls: seq<string>)
    ensures BuildBearFlexMessage(imageUrls).altText == DefaultAltText
  {
  }

  /** The images shown, read off the bubbles' heroes, are the input's first ten. */
  lemma {:induction false} HeroesAreFirstImages(imageUrls: seq<string>, altText: string)
    ensures var bs := Bubbles(BuildBearFlexMessage(imageUrls, altText).contents);
      seq(|bs|, i requires 0 <= i < |bs| => bs[i].heroUrl) == Take(imageUrls, MaxItems)
  {
    var bs := Bubbles(BuildBearFlexMessage(imageUrls, altText).contents);
    var heroes := seq(|bs|, i requires 0 <= i < |bs| => bs[i].heroUrl);
    assert |heroes| == |Take(imageUrls, MaxItems)|;
    forall i | 0 <= i < |heroes| ensures heroes[i] == Take(imageUrls, MaxItems)[i] {
      assert bs[i] == BubbleFor(imageUrls[i]);
    }
  }

  /**
   * A bubble's share link is the fixed link followed by its image URL as the
   * last query parameter: the encoded URL holds no `&`, `#` or `=`, and it
   * decodes back to the image URL.
   */
  lemma ShareLinkNamesImage(url: string)
    ensures StartsWith(BubbleFor(url).shareUri, ShareBase)
    ensures var param := BubbleFor(url).shareUri[|ShareBase|..];
      '&' !in param && '#' !in param && '=' !in param && DecodeURIComponent(param) == Ok(url)
  {
    EncodedAfter(ShareBase, url);
  }

  lemma EncodedAfter(base: string, url: string)
    ensures StartsWith(base + EncodeURIComponent(url), base)
    ensures var param := (base + EncodeURIComponent(url))[|base|..];
      '&' !in param && '#' !in param && '=' !in param && DecodeURIComponent(param) == Ok(url)
  {
    var e := EncodeURIComponent(url);
    var uri := base + e;
    assert uri[..|base|] == base;
    assert uri[|base|..] == e;
    EncodedCharacters(url);
    DecodeEncode(url);
    forall i | 0 <= i < |e| ensures e[i] != '&' && e[i] != '#' && e[i] != '=' {
      assert IsUnreserved(e[i]) || e[i] == '%';
    }
  }

  /** Every bubble of a message shares its own image. */
  lemma EveryBubbleSharesItsImage(imageUrls: seq<string>, altText: string, i: nat)
    requires i < |Bubbles(BuildBearFlexMessage(imageUrls, altText).contents)|
    ensures var b := Bubbles(BuildBearFlexMessage(imageUrls, altText).contents)[i];
      b.heroUrl == imageUrls[i] && DecodeURIComponent(b.shareUri[|ShareBase|..]) == Ok(b.heroUrl)
  {
    ShareLinkNamesImage(imageUrls[i]);
  }
}
