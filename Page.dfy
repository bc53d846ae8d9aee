/**
 * The single page of the app: six state cells (started, wizard step,
 * chosen files, persona, analysis answer, loading) and the event handlers
 * that move between the landing screen, the upload step, the persona step
 * and the result screen.
 */
module Page {
  import opened Wrappers
  import opened Api
  import ImageUploader
  import PersonaSelector
  import AnalysisResult

  /** What the page shows. */
  datatype Screen = Landing | Upload | PersonaChoice | ResultView

  /** The page background on the result screen, per persona. */
  const PersonaBgColors: map<string, string> := map[
    PersonaSelector.Pepe := "bg-[#F8BBD0]",
    PersonaSelector.Labong := "bg-[#FFE0B2]",
    PersonaSelector.Pico := "bg-[#C8E6C9]",
    PersonaSelector.Shasha := "bg-[#B3E5FC]"
  ]

  /** The page background everywhere else. */
  const DefaultBg: string := "bg-[#EBF5FF]"

  /** A `string | null` that JavaScript treats as true: present and not empty. */
  predicate Truthy(persona: Option<string>)
  {
    persona.Some? && persona.value != ""
  }

  /** `persona || ""`: the name handed to the result screen. */
  function NameOrEmpty(persona: Option<string>): string
  {
    if Truthy(persona) then persona.value else ""
  }

  /** The result background is the highlight colour of the persona's theme. */
  lemma BgColorsAreThemeHighlights()
    ensures forall i :: 0 <= i < |PersonaSelector.Options| ==>
      var name := PersonaSelector.Options[i].name;
      name in PersonaBgColors && PersonaBgColors[name] == "bg-[" + AnalysisResult.ThemeFor(name).highlight + "]"
  {
  }

  class Home {
    var isStarted: bool
    var currentStep: int
    var files: seq<File>
    var persona: Option<string>
    var result: Option<AnalysisResponse>
    var loading: bool

    /**
     * The states the handlers can reach: at most four files, step 1 or 2,
     * a persona only from the cards, nothing in flight between events,
     * the persona step only with files, an answer only for files and a
     * persona, and a landing screen only with everything cleared.
     */
    predicate Valid()
      reads this
    {
      && |files| <= ImageUploader.MaxFiles
      && (currentStep == 1 || currentStep == 2)
      && (persona.Some? ==> PersonaSelector.IsOptionName(persona.value))
      && !loading
      && (currentStep == 2 ==> files != [])
      && (result.Some? ==> files != [] && persona.Some?)
      && (!isStarted ==> currentStep == 1 && files == [] && persona == None && result == None)
    }

    /** The state of a fresh page. */
    predicate Initial()
      reads this
    {
      !isStarted && currentStep == 1 && files == [] && persona == None && result == None && !loading
    }

    /** Which screen the render picks from the state. */
    function Screen(): (s: Screen)
      reads this
      ensures s == Landing <==> !isStarted
      ensures s == ResultView <==> isStarted && result.Some?
      ensures s == Upload <==> isStarted && result == None && currentStep == 1
    {
      if !isStarted then Landing
      else if result.Some? then ResultView
      else if currentStep == 1 then Upload
      else PersonaChoice
    }

    /** The page background: `undefined` (None) for a persona the colour table does not know. */
    function BgClass(): (r: Option<string>)
      reads this
      ensures !(result.Some? && Truthy(persona)) ==> r == Some(DefaultBg)
    {
      if result.Some? && Truthy(persona) then
        (if persona.value in PersonaBgColors then Some(PersonaBgColors[persona.value]) else None)
      else Some(DefaultBg)
    }

    /**
     * The analyse button is greyed out until a persona is chosen: JavaScript's
     * `!persona` holds for null and for the empty name. On the persona step
     * the files are never missing, so the button is greyed out exactly when
     * the handler's guard would stop the request.
     */
    function AnalyzeDisabled(): (r: bool)
      reads this
      ensures r <==> persona == None || persona == Some("")
      ensures Valid() && Screen() == PersonaChoice ==> (r <==> files == [] || !Truthy(persona))
    {
      !Truthy(persona)
    }

    constructor ()
      ensures Initial() && Valid() && Screen() == Landing
    {
      isStarted, currentStep, files, persona, result, loading := false, 1, [], None, None, false;
    }

    /** The start button of the landing screen. */
    method Start()
      requires Valid() && Screen() == Landing
      modifies this
      ensures isStarted
      ensures currentStep == old(currentStep) && files == old(files) && persona == old(persona)
      ensures result == old(result) && loading == old(loading)
      ensures Valid() && Screen() == Upload
    {
      isStarted := true;
    }

    /** The file input of the upload step; the control exists on that screen only. */
    method ChooseFiles(selection: seq<File>)
      requires Valid() && Screen() == Upload
      modifies this
      ensures files == ImageUploader.Added(old(files), selection)
      ensures isStarted == old(isStarted) && currentStep == old(currentStep) && persona == old(persona)
      ensures result == old(result) && loading == old(loading)
      ensures Valid() && Screen() == Upload
    {
      ImageUploader.UpdatesStayWithinCap(files, selection, 0);
      files := ImageUploader.Added(files, selection);
    }

    /** The delete badge of the preview at `index`. */
    method RemoveFile(index: int)
      requires Valid() && Screen() == Upload
      modifies this
      ensures files == ImageUploader.Removed(old(files), index)
      ensures isStarted == old(isStarted) && currentStep == old(currentStep) && persona == old(persona)
      ensures result == old(result) && loading == old(loading)
      ensures Valid() && Screen() == Upload
    {
      ImageUploader.UpdatesStayWithinCap(files, [], index);
      files := ImageUploader.Removed(files, index);
    }

    /** The next button of the upload step: disabled, hence without effect, while no file is chosen. */
    method UploaderNext()
      requires Valid() && Screen() == Upload
      modifies this
      ensures currentStep == if ImageUploader.NextDisabled(old(files)) then 1 else 2
      ensures isStarted == old(isStarted) && files == old(files) && persona == old(persona)
      ensures result == old(result) && loading == old(loading)
      ensures Valid() && Screen() == if old(files) == [] then Upload else PersonaChoice
    {
      if !ImageUploader.NextDisabled(files) {
        currentStep := 2;
      }
    }

    /** A click on the persona card at position `i`. */
    method SelectPersona(i: nat)
      requires Valid() && Screen() == PersonaChoice
      requires i < |PersonaSelector.Options|
      modifies this
      ensures persona == Some(PersonaSelector.Options[i].name)
      ensures isStarted == old(isStarted) && currentStep == old(currentStep) && files == old(files)
      ensures result == old(result) && loading == old(loading)
      ensures Valid() && Screen() == PersonaChoice && !AnalyzeDisabled()
    {
      persona := PersonaSelector.Clicked(i);
    }

    /**
     * The analyse button. Without files or a persona it does nothing.
     * Otherwise it sends the form through `transport`, keeps the answer on
     * success (the page turns to the result screen) and keeps the state on
     * failure (the page stays on the persona step); loading is over in
     * both cases.
     */
    method HandleStartAnalysis(configured: Option<string>, transport: Request -> Outcome)
      returns (sent: Option<Request>)
      requires Valid() && Screen() == PersonaChoice
      modifies this
      ensures old(files) == [] || !Truthy(old(persona)) ==> sent == None && result == old(result)
      ensures old(files) != [] && Truthy(old(persona)) ==>
        && sent == Some(Request(AnalyzeUrl(configured), FormFor(old(files), old(persona).value)))
        && result == (if transport(sent.value).Success? then Some(transport(sent.value).data) else old(result))
      ensures isStarted == old(isStarted) && currentStep == old(currentStep) && files == old(files)
      ensures persona == old(persona) && !loading
      ensures Valid()
      ensures Screen() == if sent.Some? && transport(sent.value).Success? then ResultView else PersonaChoice
    {
      if files == [] || !Truthy(persona) {
        return None;
      }
      loading := true;
      var request, body := AnalyzeImage(files, persona.value, configured, transport);
      if body.Some? {
        result := body;
      }
      loading := false;
      sent := Some(request);
    }

    /** The restart button of the result screen: back to a fresh page. */
    method HandleReset()
      requires Valid()
      modifies this
      ensures Initial() && Valid() && Screen() == Landing
    {
      result := None;
      files := [];
      persona := None;
      currentStep := 1;
      isStarted := false;
    }
  }

  /**
   * On the result screen the background is always defined and is the
   * highlight colour of the theme the result screen uses, which is the
   * chosen persona's own theme.
   */
  lemma ResultBackgroundMatchesTheme(h: Home)
    requires h.Valid() && h.Screen() == ResultView
    ensures h.persona.Some? && NameOrEmpty(h.persona) == h.persona.value
    ensures h.BgClass() == Some("bg-[" + AnalysisResult.ThemeFor(NameOrEmpty(h.persona)).highlight + "]")
    ensures AnalysisResult.ThemeFor(NameOrEmpty(h.persona)) == AnalysisResult.PersonaThemes[h.persona.value]
  {
    var i :| 0 <= i < |PersonaSelector.Options| && PersonaSelector.Options[i].name == h.persona.value;
    BgColorsAreThemeHighlights();
    AnalysisResult.OptionsHaveOwnThemes();
  }

  /** Off the result screen the background is the default sky blue. */
  lemma OtherScreensUseDefaultBackground(h: Home)
    requires h.Valid() && h.Screen() != ResultView
    ensures h.BgClass() == Some(DefaultBg)
  {
  }
}
