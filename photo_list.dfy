/** The state of the photo table component: the displayed list, the two drafts
    bound to the add row and the edit modal, and the modal state. Each HTTP
    request together with its callback is one atomic method; the reply is a
    parameter (`Ok` for the `next` callback, `Failed` for the `error` callback,
    which only logs). The form bindings write `newPhoto` and `editingPhoto`
    directly, as the template does. */
module PhotoList {
  import opened Photos
  import opened PhotoListOps

  class PhotoListComponent {
    var photos: seq<Photo>
    var newPhoto: Photo
    var editingPhoto: Photo
    var showModal: bool
    /** A number in the source; kept optional because `photo.id!` stores whatever
        id the opened record has, an absent one included. */
    var currentEditId: Option<int>

    /** The field initialisers. */
    constructor ()
      ensures photos == [] && newPhoto == EmptyDraft && editingPhoto == EmptyDraft
      ensures !showModal && currentEditId == Some(0)
    {
      photos := [];
      newPhoto := EmptyDraft;
      editingPhoto := EmptyDraft;
      showModal := false;
      currentEditId := Some(0);
    }

    /** `getPhotos` (also what `ngOnInit` does): a successful fetch shows the
        first 20 records of the response in the server's order. */
    method GetPhotos(response: Reply<seq<Photo>>)
      modifies this`photos
      ensures response.Failed? ==> photos == old(photos)
      ensures response.Ok? ==>
                photos == FirstShown(response.body) && |photos| <= MaxShown &&
                |photos| == (if |response.body| < MaxShown then |response.body| else MaxShown) &&
                photos == response.body[..|photos|]
    {
      if response.Ok? {
        photos := FirstShown(response.body);
      }
    }

    /** `addPhoto`: a complete draft is sent; on success the draft, with the
        server's id or the fallback, goes to the front and the form is cleared.
        `submitted` says whether the draft passed validation. */
    method AddPhoto(response: Reply<Photo>, fallbackId: int) returns (submitted: bool)
      requires 0 <= fallbackId < 10000
      modifies this`photos, this`newPhoto
      ensures submitted <==> IsComplete(old(newPhoto))
      ensures !submitted || response.Failed? ==> photos == old(photos) && newPhoto == old(newPhoto)
      ensures submitted && response.Ok? ==>
                photos == [Created(old(newPhoto), response.body.id, fallbackId)] + old(photos) &&
                |photos| == |old(photos)| + 1 && photos[1..] == old(photos) &&
                newPhoto == EmptyDraft
    {
      submitted := IsComplete(newPhoto);
      if submitted && response.Ok? {
        photos := [Created(newPhoto, response.body.id, fallbackId)] + photos;
        newPhoto := EmptyDraft;
      }
    }

    /** `openEditModal`: copies all five fields of `photo` into the edit draft,
        remembers its id and shows the modal. */
    method OpenEditModal(photo: Photo)
      modifies this`editingPhoto, this`currentEditId, this`showModal
      ensures editingPhoto == photo && currentEditId == photo.id && showModal
    {
      currentEditId := photo.id;
      editingPhoto := Photo(photo.id, photo.albumId, photo.title, photo.url, photo.thumbnailUrl);
      showModal := true;
    }

    /** `closeModal`: hides the modal and resets the edit id to 0. */
    method CloseModal()
      modifies this`showModal, this`currentEditId
      ensures !showModal && currentEditId == Some(0)
    {
      showModal := false;
      currentEditId := Some(0);
    }

    /** `confirmEdit`: a complete edit draft is sent; on success the first record
        whose id is the edit id is replaced by the response and the modal closes.
        `submitted` says whether the draft passed validation. */
    method ConfirmEdit(response: Reply<Photo>) returns (submitted: bool)
      modifies this`photos, this`showModal, this`currentEditId
      ensures submitted <==> IsComplete(editingPhoto)
      ensures !submitted || response.Failed? ==>
                photos == old(photos) && showModal == old(showModal) && currentEditId == old(currentEditId)
      ensures submitted && response.Ok? ==>
                photos == ReplaceFirst(old(photos), old(currentEditId), response.body) &&
                !showModal && currentEditId == Some(0)
      ensures submitted && response.Ok? ==>
                var i := FirstIndexOf(old(photos), old(currentEditId));
                |photos| == |old(photos)| &&
                (i == -1 ==> photos == old(photos)) &&
                (i != -1 ==> photos[i] == response.body &&
                             forall j :: 0 <= j < |photos| && j != i ==> photos[j] == old(photos)[j])
    {
      submitted := IsComplete(editingPhoto);
      if submitted && response.Ok? {
        ghost var before := photos;
        var index := FirstIndexOf(photos, currentEditId);
        ReplaceAtFirstIndex(photos, currentEditId, response.body);
        if index != -1 {
          photos := photos[index := response.body];
          assert forall j :: 0 <= j < |photos| && j != index ==> photos[j] == before[j];
        }
        assert photos == ReplaceFirst(before, currentEditId, response.body);
        CloseModal();
      }
    }

    /** `deletePhoto`: when the user confirms and the request succeeds, every
        record with that id leaves the list and the others keep their order. */
    method DeletePhoto(id: int, confirmed: bool, response: Reply<()>)
      modifies this`photos
      ensures !confirmed || response.Failed? ==> photos == old(photos)
      ensures confirmed && response.Ok? ==>
                photos == Without(old(photos), id) && |photos| <= |old(photos)| &&
                (forall i :: 0 <= i < |photos| ==> photos[i].id != Some(id)) &&
                (forall x :: x in photos <==> x in old(photos) && x.id != Some(id)) &&
                IsSubsequence(photos, old(photos))
    {
      if confirmed && response.Ok? {
        WithoutIsSubsequence(photos, id);
        WithoutRemovesId(photos, id);
        forall x: Photo ensures x in Without(photos, id) <==> x in photos && x.id != Some(id) {
          WithoutMembers(photos, id, x);
        }
        photos := Without(photos, id);
      }
    }
  }
}
