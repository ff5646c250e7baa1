/**
 * The state of the App component (App.tsx) and its event handlers. Each `useState`
 * slot is a field; each handler is a method that overwrites the slots it sets.
 * Persisting to browser storage after a change is not part of this model.
 */
module AppState {
  import opened Types
  import opened Collection
  import Timeline

  class App {
    var memories: seq<Memory>
    var isModalOpen: bool
    /** The record the create/edit dialog was opened for; `None` means "create". */
    var editingMemory: Option<Memory>
    /** The id awaiting delete confirmation. */
    var deleteId: Option<string>
    var loading: bool

    constructor ()
      ensures memories == [] && !isModalOpen && editingMemory == None
      ensures deleteId == None && loading
    {
      memories := [];
      isModalOpen := false;
      editingMemory := None;
      deleteId := None;
      loading := true;
    }

    /** The mount effect: install what storage yields (see `Load`) and stop loading.
        Returns whether the mount effect itself writes the seed list to storage, which it
        does only for a missing value. */
    method LoadOnMount(stored: StoredValue) returns (writeSeeds: bool)
      modifies this
      ensures memories == Load(stored).memories && writeSeeds == Load(stored).writeSeeds
      ensures stored.Parsed? ==> memories == stored.list
      ensures !stored.Parsed? ==> memories == Seeds() && UniqueIds(memories)
      ensures !loading
      ensures isModalOpen == old(isModalOpen) && editingMemory == old(editingMemory)
      ensures deleteId == old(deleteId)
    {
      var loaded := Load(stored);
      memories := loaded.memories;
      writeSeeds := loaded.writeSeeds;
      loading := false;
    }

    method OpenCreateModal()
      modifies this
      ensures editingMemory == None && isModalOpen
      ensures memories == old(memories) && deleteId == old(deleteId) && loading == old(loading)
    {
      editingMemory := None;
      isModalOpen := true;
    }

    /** Opens the dialog on the first record with id `id`; an unknown id changes nothing. */
    method OpenEditModal(id: string)
      modifies this
      ensures id !in Ids(memories) ==>
        isModalOpen == old(isModalOpen) && editingMemory == old(editingMemory)
      ensures id in Ids(memories) ==>
        isModalOpen && editingMemory.Some? && editingMemory.value.id == id
        && editingMemory.value in memories
        && editingMemory == Find(memories, id)
      ensures memories == old(memories) && deleteId == old(deleteId) && loading == old(loading)
    {
      var found := Find(memories, id);
      if found.Some? {
        editingMemory := found;
        isModalOpen := true;
      }
    }

    /** `handleSaveMemory`: update the record being edited, or prepend a new record
        under `freshId`; then close the dialog. Ids stay unique when the new id is fresh. */
    method SaveMemory(draft: MemoryDraft, freshId: string)
      modifies this
      ensures old(editingMemory).Some? ==>
        memories == Update(old(memories), old(editingMemory).value.id, draft)
      ensures old(editingMemory).None? ==>
        memories == Create(old(memories), draft, freshId)
      ensures |memories| == |old(memories)| + (if old(editingMemory).None? then 1 else 0)
      ensures UniqueIds(old(memories)) && (old(editingMemory).None? ==> freshId !in Ids(old(memories)))
        ==> UniqueIds(memories)
      ensures !isModalOpen && editingMemory == None
      ensures deleteId == old(deleteId) && loading == old(loading)
    {
      match editingMemory {
        case Some(target) =>
          if UniqueIds(memories) { UpdateKeepsIds(memories, target.id, draft); }
          memories := Update(memories, target.id, draft);
        case None =>
          if UniqueIds(memories) && freshId !in Ids(memories) {
            CreateAddsOneRecord(memories, draft, freshId);
          }
          memories := Create(memories, draft, freshId);
      }
      isModalOpen := false;
      editingMemory := None;
    }

    /** The dialog's close button. */
    method CloseModal()
      modifies this
      ensures !isModalOpen && editingMemory == None
      ensures memories == old(memories) && deleteId == old(deleteId) && loading == old(loading)
    {
      isModalOpen := false;
      editingMemory := None;
    }

    method RequestDeleteMemory(id: string)
      modifies this
      ensures deleteId == Some(id)
      ensures memories == old(memories) && isModalOpen == old(isModalOpen)
      ensures editingMemory == old(editingMemory) && loading == old(loading)
    {
      deleteId := Some(id);
    }

    /** `confirmDeleteMemory`: with a pending (non-empty) id, drop its records and clear it;
        otherwise nothing happens. */
    method ConfirmDeleteMemory()
      modifies this
      ensures old(deleteId).Some? && old(deleteId).value != "" ==>
        memories == Remove(old(memories), old(deleteId).value) && deleteId == None
      ensures old(deleteId).None? || old(deleteId).value == "" ==>
        memories == old(memories) && deleteId == old(deleteId)
      ensures old(deleteId).Some? && old(deleteId).value !in Ids(old(memories)) ==>
        memories == old(memories)
      ensures UniqueIds(old(memories)) ==> UniqueIds(memories)
      ensures isModalOpen == old(isModalOpen) && editingMemory == old(editingMemory)
      ensures loading == old(loading)
    {
      if deleteId.Some? && deleteId.value != "" {
        var id := deleteId.value;
        if id !in Ids(memories) { RemoveMissingIsNoop(memories, id); }
        if UniqueIds(memories) { RemoveKeepsUniqueIds(memories, id); }
        memories := Remove(memories, id);
        deleteId := None;
      }
    }

    /** Dismissing the confirmation dialog. */
    method CancelDelete()
      modifies this
      ensures deleteId == None
      ensures memories == old(memories) && isModalOpen == old(isModalOpen)
      ensures editingMemory == old(editingMemory) && loading == old(loading)
    {
      deleteId := None;
    }

    /** The "together since" date shown in the hero banner. */
    function StartDate(): (d: Date)
      reads this
      ensures d == Timeline.StartDate(memories)
    {
      Timeline.StartDate(memories)
    }

    /** The cards in timeline order. */
    function SortedMemories(): (r: seq<Memory>)
      reads this
      ensures r == Timeline.DisplayOrder(memories)
    {
      Timeline.DisplayOrder(memories)
    }
  }
}
