/** The logic inside the Pocket table's render (PocketTable.tsx): row
    numbering, the tag summary (at most three trimmed tags and a "+N"
    badge for the rest), the status badge variant, and the empty-table
    notice. Date formatting is not part of this model. */
module PocketTable {
  import opened Wrappers
  import opened Text
  import opened PocketService

  /** Tags shown before the rest collapse into a "+N" badge. */
  const MaxShownTags: nat := 3

  const NoTagsText: string := "No tags"
  const EmptyTableText: string := "No pocket links found."

  /** The tag cell: the "No tags" placeholder, or the tag badges followed by
      an optional overflow badge whose text is "+N". */
  datatype TagCell = NoTags | TagBadges(shown: seq<string>, overflow: Option<string>)

  datatype BadgeVariant = Default | Secondary

  /** One table row: its 1-based number, the link, and its two badge cells. */
  datatype RowView = RowView(number: nat, link: PocketLink, tags: TagCell, statusVariant: BadgeVariant)

  datatype TableView = TableView(rows: seq<RowView>, emptyNotice: Option<string>)

  function Min(a: nat, b: nat): nat {
    if a <= b then a else b
  }

  /** The tag cell for a link's `tags` column. Both `null` and `""` are falsy
      and give "No tags"; otherwise `k` counts the raw parts of
      `tags.split(',')`, empty ones included. */
  function TagSummary(tags: Option<string>): (c: TagCell)
    ensures c.NoTags? <==> tags.None? || tags.value == ""
    ensures c.TagBadges? ==>
              var parts := Split(tags.value, ',');
              && |c.shown| == Min(MaxShownTags, |parts|)
              && (forall k :: 0 <= k < |c.shown| ==> c.shown[k] == Trim(JavaScript, parts[k]))
              && (c.overflow.Some? <==> |parts| > MaxShownTags)
              && (c.overflow.Some? ==> c.overflow.value == "+" + NatToString(|parts| - MaxShownTags))
  {
    if tags.None? || tags.value == "" then NoTags
    else
      var parts := Split(tags.value, ',');
      var shown := seq(Min(MaxShownTags, |parts|), k requires 0 <= k < Min(MaxShownTags, |parts|) => Trim(JavaScript, parts[k]));
      var overflow := if |parts| > MaxShownTags then Some("+" + NatToString(|parts| - MaxShownTags)) else None;
      TagBadges(shown, overflow)
  }

  /** The number a "+N" badge stands for (0 when there is no badge). */
  function HiddenCount(c: TagCell): nat
    requires c.TagBadges?
  {
    if c.overflow.Some? && |c.overflow.value| >= 2 && AllDigits(c.overflow.value[1..])
    then DigitsValue(c.overflow.value[1..]) else 0
  }

  /** Shown tags plus the number on the "+N" badge account for every tag,
      and the tag count is one more than the number of commas. */
  lemma TagSummaryAccountsForAllTags(tags: string)
    requires tags != ""
    ensures TagSummary(Some(tags)).TagBadges?
    ensures |TagSummary(Some(tags)).shown| + HiddenCount(TagSummary(Some(tags))) == Count(tags, ',') + 1
  {
    var c := TagSummary(Some(tags));
    var parts := Split(tags, ',');
    SplitCount(tags, ',');
    if |parts| > MaxShownTags {
      var n := |parts| - MaxShownTags;
      assert c.overflow.value[1..] == NatToString(n);
      DigitsOfNat(n);
    }
  }

  /** A character that can stand alone as a tag: not a comma, not whitespace. */
  predicate IsTagChar(c: char) {
    c != ',' && !IsSpace(JavaScript, c)
  }

  /** "a,b,c,d" splits into its four one-character tags. */
  lemma SplitFourTags(a: char, b: char, c: char, d: char)
    requires IsTagChar(a) && IsTagChar(b) && IsTagChar(c) && IsTagChar(d)
    ensures Split([a, ',', b, ',', c, ',', d], ',') == [[a], [b], [c], [d]]
  {
    SplitAtOther(d, [], ',');
    assert [d] + [] == [d];
    assert Split([d], ',') == [[d]];
    SplitSingleCharPart(c, [d], ',');
    assert [c, ','] + [d] == [c, ',', d];
    SplitSingleCharPart(b, [c, ',', d], ',');
    assert [b, ','] + [c, ',', d] == [b, ',', c, ',', d];
    SplitSingleCharPart(a, [b, ',', c, ',', d], ',');
    assert [a, ','] + [b, ',', c, ',', d] == [a, ',', b, ',', c, ',', d];
  }

  /** Four tags such as "a,b,c,d" show the first three and a "+1" badge. */
  lemma FourTagsExample(a: char, b: char, c: char, d: char)
    requires IsTagChar(a) && IsTagChar(b) && IsTagChar(c) && IsTagChar(d)
    ensures TagSummary(Some([a, ',', b, ',', c, ',', d])) == TagBadges([[a], [b], [c]], Some("+1"))
  {
    SplitFourTags(a, b, c, d);
    TrimUnspaced(JavaScript, [a]);
    TrimUnspaced(JavaScript, [b]);
    TrimUnspaced(JavaScript, [c]);
    var t := TagSummary(Some([a, ',', b, ',', c, ',', d]));
    assert |t.shown| == 3;
    assert |Split([a, ',', b, ',', c, ',', d], ',')| - MaxShownTags == 1;
    assert "+" + NatToString(1) == "+1";
  }

  /** The status badge is highlighted exactly for unread links. */
  function StatusVariant(status: string): (v: BadgeVariant)
    ensures v == Default <==> status == "unread"
  {
    if status == "unread" then Default else Secondary
  }

  /** The table for a list of links: one row per link in input order,
      numbered from 1, and the empty notice exactly when there are no links. */
  function Render(links: seq<PocketLink>): (t: TableView)
    ensures |t.rows| == |links|
    ensures forall k :: 0 <= k < |links| ==>
              t.rows[k].number == k + 1 && t.rows[k].link == links[k] &&
              t.rows[k].tags == TagSummary(links[k].tags) &&
              t.rows[k].statusVariant == StatusVariant(links[k].status)
    ensures t.emptyNotice.Some? <==> links == []
    ensures t.emptyNotice.Some? ==> t.emptyNotice.value == EmptyTableText
  {
    var rows := seq(|links|, k requires 0 <= k < |links| =>
      RowView(k + 1, links[k], TagSummary(links[k].tags), StatusVariant(links[k].status)));
    TableView(rows, if |links| == 0 then Some(EmptyTableText) else None)
  }

  /** Row numbers are distinct and run from 1 to the number of links. */
  lemma RowNumbersAreOneToN(links: seq<PocketLink>)
    ensures forall k :: 0 <= k < |links| ==> 1 <= Render(links).rows[k].number <= |links|
    ensures forall i, j :: 0 <= i < j < |links| ==> Render(links).rows[i].number < Render(links).rows[j].number
  {
  }
}
