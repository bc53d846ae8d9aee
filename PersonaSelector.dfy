/**
 * The persona chooser: four fixed cards, single selection. Clicking a card
 * sets the page's persona to that card's name; a card is drawn as selected
 * when its name equals the current persona.
 */
module PersonaSelector {
  import opened Wrappers

  /** One card of the chooser: display name, avatar image, blurb, selected colour. */
  datatype PersonaOption = PersonaOption(name: string, img: string, desc: string, bgColor: string)

  const Pepe: string := "마음박사 페페"
  const Labong: string := "현실친구 라봉이"
  const Pico: string := "칭찬봇 피코"
  const Shasha: string := "카리스마 샤샤"

  /** The static list of options, in display order. */
  const Options: seq<PersonaOption> := [
    PersonaOption(Pepe, "/images/pepe_front.png",
      "따뜻하고 다정하게\n박사님 스타일의 마음 읽기", "bg-[#E91E63]"),
    PersonaOption(Labong, "/images/labong_front.png",
      "솔직하지만 애정있는\n찐한 친구 스타일의 마음 읽기", "bg-[#FF9800]"),
    PersonaOption(Pico, "/images/pico_front.png",
      "완벽하게 스캔하는\n로봇 스타일의 마음 읽기", "bg-[#4CAF50]"),
    PersonaOption(Shasha, "/images/shasha_front.png",
      "쿨 하고 센스 있는\n사나이 스타일의 마음 읽기", "bg-[#03A9F4]")
  ]

  /** True when `name` is the name of one of the cards. */
  predicate IsOptionName(name: string)
  {
    exists i :: 0 <= i < |Options| && Options[i].name == name
  }

  /** The persona after the card at position `i` is clicked, whatever it was before. */
  function Clicked(i: nat): (r: Option<string>)
    requires i < |Options|
    ensures r.Some? && IsOptionName(r.value)
  {
    Some(Options[i].name)
  }

  /** `persona === opt.name`: a null persona selects no card. */
  predicate IsSelected(persona: Option<string>, opt: PersonaOption)
  {
    persona == Some(opt.name)
  }

  /** The selected flag of every card, in display order. */
  function SelectedFlags(persona: Option<string>): (r: seq<bool>)
    ensures |r| == |Options|
    ensures forall i :: 0 <= i < |r| ==> (r[i] <==> IsSelected(persona, Options[i]))
  {
    seq(|Options|, i requires 0 <= i < |Options| => IsSelected(persona, Options[i]))
  }

  /** There are exactly four options and no two share a name. */
  lemma OptionNamesDistinct()
    ensures |Options| == 4
    ensures forall i, j :: 0 <= i < j < |Options| ==> Options[i].name != Options[j].name
  {
  }

  /**
   * At most one card is drawn as selected: none for a null persona, and the
   * card with that name otherwise.
   */
  lemma AtMostOneSelected(persona: Option<string>)
    ensures persona.None? ==> forall i :: 0 <= i < |Options| ==> !SelectedFlags(persona)[i]
    ensures forall i, j ::
      0 <= i < |Options| && 0 <= j < |Options| && SelectedFlags(persona)[i] && SelectedFlags(persona)[j]
      ==> i == j
  {
    OptionNamesDistinct();
  }

  /** After a click on card `i`, card `j` is drawn as selected exactly when `j` is `i`. */
  lemma ClickSelectsExactlyThatCard(i: nat, j: nat)
    requires i < |Options| && j < |Options|
    ensures SelectedFlags(Clicked(i))[j] <==> i == j
  {
    OptionNamesDistinct();
  }
}
