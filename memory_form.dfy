/**
 * The create/edit dialog (components/AddMemoryModal.tsx): five form fields that the
 * open effect, the input handlers and the polish handler overwrite, and the draft
 * built on submit. The text-enhancement service is not called here: its two answers
 * are parameters of the step that receives them.
 */
module MemoryForm {
  import opened Types

  /** The title a draft gets when the title field is left empty. */
  const DefaultTitle: string := "A Special Day"

  /** `value || null` on an optional string: an empty string counts as absent. */
  function NonEmpty(value: Option<string>): (r: Option<string>)
    ensures r.Some? <==> value.Some? && value.value != ""
    ensures r.Some? ==> r == value
  {
    if value.Some? && value.value != "" then value else None
  }

  /** What `handlePolish` captured when it started: the description it sends, and whether
      the title was empty (so that a suggested title is asked for and applied). */
  datatype PolishRequest = PolishRequest(description: string, needsTitle: bool)

  class Form {
    var date: CalendarDate
    var title: string
    var description: string
    var image: Option<string>
    var polishStatus: PolishStatus

    /** The initial `useState` values; `today` is the current date. */
    constructor (today: CalendarDate)
      ensures date == today && title == "" && description == "" && image == None
      ensures polishStatus == Idle
    {
      date := today;
      title := "";
      description := "";
      image := None;
      polishStatus := Idle;
    }

    /** The effect run when `isOpen` or `initialData` changes: while open, fill the fields
        from the record being edited, or blank them with today's date; the status
        returns to idle. While closed it does nothing. */
    method OnOpen(isOpen: bool, initialData: Option<Memory>, today: CalendarDate)
      modifies this
      ensures !isOpen ==>
        date == old(date) && title == old(title) && description == old(description)
        && image == old(image) && polishStatus == old(polishStatus)
      ensures isOpen && initialData.Some? ==>
        date == initialData.value.date && title == initialData.value.title
        && description == initialData.value.description
        && image == NonEmpty(initialData.value.imageUrl)
      ensures isOpen && initialData.None? ==>
        date == today && title == "" && description == "" && image == None
      ensures isOpen ==> polishStatus == Idle
    {
      if isOpen {
        match initialData {
          case Some(m) =>
            date := m.date;
            title := m.title;
            description := m.description;
            image := NonEmpty(m.imageUrl);
          case None =>
            date := today;
            title := "";
            description := "";
            image := None;
        }
        polishStatus := Idle;
      }
    }

    method EditDate(value: CalendarDate)
      modifies this
      ensures date == value
      ensures title == old(title) && description == old(description)
      ensures image == old(image) && polishStatus == old(polishStatus)
    {
      date := value;
    }

    method EditTitle(value: string)
      modifies this
      ensures title == value
      ensures date == old(date) && description == old(description)
      ensures image == old(image) && polishStatus == old(polishStatus)
    {
      title := value;
    }

    method EditDescription(value: string)
      modifies this
      ensures description == value
      ensures date == old(date) && title == old(title)
      ensures image == old(image) && polishStatus == old(polishStatus)
    {
      description := value;
    }

    /** The file reader's completion callback stages the image it read as a data URI. */
    method StageImage(dataUri: string)
      modifies this
      ensures image == Some(dataUri)
      ensures date == old(date) && title == old(title) && description == old(description)
      ensures polishStatus == old(polishStatus)
    {
      image := Some(dataUri);
    }

    /** The synchronous part of `handlePolish`: nothing on an empty description; otherwise
        the status becomes `Loading` and the request captures the current description and
        whether the title is empty. */
    method StartPolish() returns (request: Option<PolishRequest>)
      modifies this
      ensures old(description) == "" ==> request == None && polishStatus == old(polishStatus)
      ensures old(description) != "" ==>
        request == Some(PolishRequest(old(description), old(title) == ""))
        && polishStatus == Loading
      ensures date == old(date) && title == old(title) && description == old(description)
      ensures image == old(image)
    {
      if description == "" {
        request := None;
      } else {
        request := Some(PolishRequest(description, title == ""));
        polishStatus := Loading;
      }
    }

    /** The rest of `handlePolish`, once both answers are in: the description becomes the
        polished text, the title becomes the suggestion only if it was empty when the
        request started, and the status becomes `Success`. */
    method FinishPolish(request: PolishRequest, polished: string, suggested: string)
      modifies this
      ensures description == polished
      ensures title == if request.needsTitle then suggested else old(title)
      ensures polishStatus == Success
      ensures date == old(date) && image == old(image)
    {
      description := polished;
      if request.needsTitle {
        title := suggested;
      }
      polishStatus := Success;
    }

    /** `handlePolish` as one step, with no edits while the request is in flight. */
    method Polish(polished: string, suggested: string)
      modifies this
      ensures old(description) == "" ==>
        description == old(description) && title == old(title) && polishStatus == old(polishStatus)
      ensures old(description) != "" ==>
        description == polished && polishStatus == Success
        && title == (if old(title) == "" then suggested else old(title))
      ensures date == old(date) && image == old(image)
    {
      var request := StartPolish();
      if request.Some? {
        FinishPolish(request.value, polished, suggested);
      }
    }

    /** The timer callback scheduled by `handlePolish`. */
    method PolishStatusTick()
      modifies this
      ensures polishStatus == Idle
      ensures date == old(date) && title == old(title) && description == old(description)
      ensures image == old(image)
    {
      polishStatus := Idle;
    }

    /** `handleSubmit`: the draft handed to the collection. The title defaults when empty,
        the image is dropped when absent or empty, no tags are carried, and the form
        itself is left as it is. */
    method Submit() returns (draft: MemoryDraft)
      ensures draft.date == date && draft.description == description
      ensures draft.title == (if title == "" then DefaultTitle else title)
      ensures draft.title != ""
      ensures draft.imageUrl == NonEmpty(image)
      ensures draft.tags == None
    {
      draft := MemoryDraft(date, if title == "" then DefaultTitle else title, description, NonEmpty(image), None);
    }
  }

  /** Opening the dialog on a record and submitting it untouched hands back that record's
      fields, except that an empty title is defaulted, an empty image URL is dropped and
      tags are lost. */
  method EditThenSubmit(m: Memory, today: CalendarDate) returns (draft: MemoryDraft)
    ensures draft.date == m.date && draft.description == m.description
    ensures draft.title == (if m.title == "" then DefaultTitle else m.title)
    ensures draft.imageUrl == NonEmpty(m.imageUrl)
    ensures draft.tags == None
    ensures m.title != "" && m.imageUrl != Some("") && m.tags == None ==> draft == DraftOf(m)
  {
    var form := new Form(today);
    form.OnOpen(true, Some(m), today);
    draft := form.Submit();
  }

  /** Polishing a new entry whose title is still empty, then submitting: the draft carries
      the polished text and the suggested title, or the default title if the suggestion
      is empty. */
  method CreatePolishSubmit(today: CalendarDate, text: string, polished: string, suggested: string)
    returns (draft: MemoryDraft, status: PolishStatus)
    requires text != ""
    ensures draft.date == today && draft.description == polished
    ensures draft.title == (if suggested == "" then DefaultTitle else suggested)
    ensures draft.imageUrl == None && status == Success
  {
    var form := new Form(today);
    form.OnOpen(true, None, today);
    form.EditDescription(text);
    form.Polish(polished, suggested);
    status := form.polishStatus;
    draft := form.Submit();
  }
}
