/**
 * Attribute markers (src/utils/attributeColors.ts): the twelve markers 'A'..'L'
 * are drawn in one of the four corners of a person's symbol, three markers per
 * corner, each in a fixed colour. The editing form offers, per corner, a
 * drop-down of "none" followed by that corner's three markers.
 */
module Attributes {
  import opened Types

  datatype Quadrant = TopLeft | TopRight | BottomLeft | BottomRight

  /** The marker's code as the form and the saved file spell it. */
  function MarkerCode(m: AttributeMarker): string {
    match m
    case A => "A" case B => "B" case C => "C" case D => "D"
    case E => "E" case F => "F" case G => "G" case H => "H"
    case I => "I" case J => "J" case K => "K" case L => "L"
  }

  /** `attributeColors`: the colour table. */
  const AttributeColors: map<AttributeMarker, string> := map[
    A := "#00af54", B := "#f27935", C := "#d4071c",
    D := "#70bdc2", E := "#fcf384", F := "#e69aaf",
    G := "#08488f", H := "#866310", I := "#9270c2",
    J := "#a3cf62", K := "#91a4c2", L := "#af70c2"]

  /**
   * `getAttributeColor`: the table colour, or "transparent" for a marker the
   * table lacks.
   */
  function GetAttributeColor(m: AttributeMarker): string {
    if m in AttributeColors then AttributeColors[m] else "transparent"
  }

  /**
   * The colour table is total over 'A'..'L': the "transparent" fallback is
   * never taken and every marker is drawn in its table colour, a "#rrggbb"
   * string.
   */
  lemma ColorTableTotal(m: AttributeMarker)
    ensures m in AttributeColors && GetAttributeColor(m) == AttributeColors[m]
    ensures GetAttributeColor(m) != "transparent"
    ensures |GetAttributeColor(m)| == 7 && GetAttributeColor(m)[0] == '#'
  {
    match m
    case A => case B => case C => case D => case E => case F =>
    case G => case H => case I => case J => case K => case L =>
  }

  /** `quadrantMarkers`: the three markers drawn in each corner. */
  function QuadrantMarkers(q: Quadrant): seq<AttributeMarker> {
    match q
    case TopLeft => [A, B, C]
    case TopRight => [D, E, F]
    case BottomLeft => [J, K, L]
    case BottomRight => [G, H, I]
  }

  /**
   * `getQuadrant`: the first corner whose group contains the marker, checked in
   * the order top-left, top-right, bottom-left, bottom-right, else null.
   */
  function GetQuadrant(m: AttributeMarker): Option<Quadrant> {
    if m in QuadrantMarkers(TopLeft) then Some(TopLeft)
    else if m in QuadrantMarkers(TopRight) then Some(TopRight)
    else if m in QuadrantMarkers(BottomLeft) then Some(BottomLeft)
    else if m in QuadrantMarkers(BottomRight) then Some(BottomRight)
    else None
  }

  /**
   * `getQuadrant` never returns null: every marker has a corner, its group
   * holds the marker, and no other corner's group does.
   */
  lemma QuadrantTotal(m: AttributeMarker)
    ensures GetQuadrant(m).Some?
    ensures m in QuadrantMarkers(GetQuadrant(m).value)
    ensures forall q :: m in QuadrantMarkers(q) ==> q == GetQuadrant(m).value
  {
    forall q | m in QuadrantMarkers(q) ensures q == GetQuadrant(m).value {
      match q
      case TopLeft => case TopRight => case BottomLeft => case BottomRight =>
    }
  }

  /** The corner of each marker, written out. */
  lemma QuadrantOfEachMarker()
    ensures GetQuadrant(A) == GetQuadrant(B) == GetQuadrant(C) == Some(TopLeft)
    ensures GetQuadrant(D) == GetQuadrant(E) == GetQuadrant(F) == Some(TopRight)
    ensures GetQuadrant(J) == GetQuadrant(K) == GetQuadrant(L) == Some(BottomLeft)
    ensures GetQuadrant(G) == GetQuadrant(H) == GetQuadrant(I) == Some(BottomRight)
  {
  }

  /** The four groups one after another: top-left, top-right, bottom-left, bottom-right. */
  function AllQuadrantMarkers(): seq<AttributeMarker> {
    QuadrantMarkers(TopLeft) + QuadrantMarkers(TopRight) +
    QuadrantMarkers(BottomLeft) + QuadrantMarkers(BottomRight)
  }

  /**
   * The four groups partition the twelve markers: each group has three
   * markers, the twelve listed are pairwise distinct (so no two groups share
   * one), and every marker is among them.
   */
  lemma QuadrantsPartitionMarkers(m: AttributeMarker)
    ensures forall q :: |QuadrantMarkers(q)| == 3
    ensures |AllQuadrantMarkers()| == 12
    ensures forall i, j :: 0 <= i < j < |AllQuadrantMarkers()| ==> AllQuadrantMarkers()[i] != AllQuadrantMarkers()[j]
    ensures m in AllQuadrantMarkers()
  {
    QuadrantTotal(m);
  }

  /** Distinct markers are drawn in distinct colours. */
  lemma ColorsDistinct(m1: AttributeMarker, m2: AttributeMarker)
    requires m1 != m2
    ensures GetAttributeColor(m1) != GetAttributeColor(m2)
  {
    ColorTableTotal(m1);
    ColorTableTotal(m2);
  }

  /** One entry of a corner's drop-down: the stored value, its caption and colour. */
  datatype AttributeOption = AttributeOption(value: string, caption: string, color: Option<string>)

  /** The "none" entry every drop-down begins with. */
  const NoneOption := AttributeOption("", "없음", None)

  /** `attributeOptions`: the drop-down entries of each corner. */
  function AttributeOptions(q: Quadrant): seq<AttributeOption> {
    match q
    case TopLeft => [NoneOption,
      AttributeOption("A", "● 녹색", Some("#00af54")),
      AttributeOption("B", "● 주황", Some("#f27935")),
      AttributeOption("C", "● 빨강", Some("#d4071c"))]
    case TopRight => [NoneOption,
      AttributeOption("D", "● 시안", Some("#70bdc2")),
      AttributeOption("E", "● 금색", Some("#fcf384")),
      AttributeOption("F", "● 분홍", Some("#e69aaf"))]
    case BottomLeft => [NoneOption,
      AttributeOption("J", "● 연두", Some("#a3cf62")),
      AttributeOption("K", "● 회청", Some("#91a4c2")),
      AttributeOption("L", "● 자홍", Some("#af70c2"))]
    case BottomRight => [NoneOption,
      AttributeOption("G", "● 파랑", Some("#08488f")),
      AttributeOption("H", "● 갈색", Some("#866310")),
      AttributeOption("I", "● 보라", Some("#9270c2"))]
  }

  /**
   * Each drop-down starts with the empty "none" value; the remaining entries
   * are exactly that corner's markers in order, each shown in the marker's
   * table colour.
   */
  lemma OptionsMatchQuadrant(q: Quadrant)
    ensures |AttributeOptions(q)| == |QuadrantMarkers(q)| + 1
    ensures AttributeOptions(q)[0].value == "" && AttributeOptions(q)[0].color.None?
    ensures forall i :: 0 <= i < |QuadrantMarkers(q)| ==>
      AttributeOptions(q)[i + 1].value == MarkerCode(QuadrantMarkers(q)[i]) &&
      AttributeOptions(q)[i + 1].color == Some(GetAttributeColor(QuadrantMarkers(q)[i]))
  {
    forall i | 0 <= i < |QuadrantMarkers(q)|
      ensures AttributeOptions(q)[i + 1].value == MarkerCode(QuadrantMarkers(q)[i])
      ensures AttributeOptions(q)[i + 1].color == Some(GetAttributeColor(QuadrantMarkers(q)[i]))
    {
      OptionMatchesMarker(q, i);
    }
  }

  /** The entry after "none" at position `i + 1` is the corner's `i`-th marker. */
  lemma OptionMatchesMarker(q: Quadrant, i: int)
    requires 0 <= i < |QuadrantMarkers(q)|
    ensures |AttributeOptions(q)| == |QuadrantMarkers(q)| + 1
    ensures AttributeOptions(q)[i + 1].value == MarkerCode(QuadrantMarkers(q)[i])
    ensures AttributeOptions(q)[i + 1].color == Some(GetAttributeColor(QuadrantMarkers(q)[i]))
  {
    match q
    case TopLeft => case TopRight => case BottomLeft => case BottomRight =>
  }
}
