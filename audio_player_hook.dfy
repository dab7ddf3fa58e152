/**
 * The playback state holder (src/hooks/useAudioPlayer.ts).
 *
 * The hook keeps three pieces of state, `isPlaying`, `currentTime` and
 * `duration`, and a reference to one media element. The state changes only
 * in the five event handlers and in `seek`; the transport commands go to the
 * element and leave the state alone. The element itself is foreign: here it
 * is a record of what passed between it and the hook: its source, the last
 * position the hook assigned or the element reported, the last duration it
 * reported, the listeners registered on it and the log of commands it was
 * sent. The element's own reaction to those writes (clamping an assigned
 * position, resetting on `load()`) is not modelled; it reaches the hook only
 * as later events. Each element event is an input method whose arguments are
 * what the element reports.
 */
module AudioPlayerHook {
  import opened Wrappers

  /** The element events the hook subscribes to. */
  datatype EventKind = TimeUpdate | LoadedMetadata | Ended | PlayEvent | PauseEvent

  /** The five listeners one setup registers, one per event. */
  const HookListeners: multiset<EventKind> :=
    multiset{TimeUpdate, LoadedMetadata, Ended, PlayEvent, PauseEvent}

  /** Commands sent to the element: `load()`, `play()`, `pause()`. */
  datatype Command = LoadCmd | PlayCmd | PauseCmd

  /**
   * The media element as the hook sees it. `position` and `duration` are the
   * last values written by the hook or reported by the element, not its live
   * clock. A listener is a distinct closure for each setup, so registrations
   * are counted with a multiset.
   */
  datatype Media = Media(
    src: string,
    position: real,
    duration: real,
    listeners: multiset<EventKind>,
    commands: seq<Command>)

  /** A freshly created element: no source, at time 0, nothing registered. */
  const NewMedia: Media := Media("", 0.0, 0.0, multiset{}, [])

  class AudioPlayer {
    /** `audioRef.current`: no element until the setup effect creates one. */
    var audio: Option<Media>
    var isPlaying: bool
    var currentTime: real
    var duration: real

    /** The hook's first render: no element yet, not playing, both times 0. */
    constructor ()
      ensures audio == None
      ensures !isPlaying && currentTime == 0.0 && duration == 0.0
    {
      audio := None;
      isPlaying := false;
      currentTime := 0.0;
      duration := 0.0;
    }

    /**
     * The mount effect: creates the element if there is none, then
     * registers one listener for each of the five events.
     */
    method Setup()
      modifies this
      ensures old(audio) == None ==> audio == Some(NewMedia.(listeners := HookListeners))
      ensures old(audio) != None ==>
        audio == Some(old(audio).value.(listeners := old(audio).value.listeners + HookListeners))
      ensures isPlaying == old(isPlaying) && currentTime == old(currentTime) && duration == old(duration)
    {
      if audio == None {
        audio := Some(NewMedia);
        assert NewMedia.listeners + HookListeners == HookListeners;
      }
      var media := audio.value;
      audio := Some(media.(listeners := media.listeners + HookListeners));
    }

    /**
     * The effect's cleanup: removes the five listeners its setup added.
     * It only exists once the setup has run, so the element is present.
     */
    method Cleanup()
      requires audio != None
      modifies this
      ensures audio == Some(old(audio).value.(listeners := old(audio).value.listeners - HookListeners))
      ensures isPlaying == old(isPlaying) && currentTime == old(currentTime) && duration == old(duration)
    {
      var media := audio.value;
      audio := Some(media.(listeners := media.listeners - HookListeners));
    }

    /**
     * `loadAudio(url)`: assigns the source and sends `load()`; the hook's
     * state is untouched. What the element does on `load()` arrives later
     * as events.
     */
    method LoadAudio(url: string)
      modifies this
      ensures old(audio) == None ==> audio == None
      ensures old(audio) != None ==>
        audio == Some(old(audio).value.(src := url, commands := old(audio).value.commands + [LoadCmd]))
      ensures isPlaying == old(isPlaying) && currentTime == old(currentTime) && duration == old(duration)
    {
      if audio != None {
        var media := audio.value;
        audio := Some(media.(src := url, commands := media.commands + [LoadCmd]));
      }
    }

    /** `play()`: asks the element to play; `isPlaying` waits for the `play` event. */
    method Play()
      modifies this
      ensures old(audio) == None ==> audio == None
      ensures old(audio) != None ==>
        audio == Some(old(audio).value.(commands := old(audio).value.commands + [PlayCmd]))
      ensures isPlaying == old(isPlaying) && currentTime == old(currentTime) && duration == old(duration)
    {
      if audio != None {
        var media := audio.value;
        audio := Some(media.(commands := media.commands + [PlayCmd]));
      }
    }

    /** `pause()`: asks the element to pause; `isPlaying` waits for the `pause` event. */
    method Pause()
      modifies this
      ensures old(audio) == None ==> audio == None
      ensures old(audio) != None ==>
        audio == Some(old(audio).value.(commands := old(audio).value.commands + [PauseCmd]))
      ensures isPlaying == old(isPlaying) && currentTime == old(currentTime) && duration == old(duration)
    {
      if audio != None {
        var media := audio.value;
        audio := Some(media.(commands := media.commands + [PauseCmd]));
      }
    }

    /** `toggle()`: sends `pause()` while playing and `play()` otherwise. */
    method Toggle()
      modifies this
      ensures old(audio) == None ==> audio == None
      ensures old(audio) != None ==>
        audio == Some(old(audio).value.(commands := old(audio).value.commands + [if old(isPlaying) then PauseCmd else PlayCmd]))
      ensures isPlaying == old(isPlaying) && currentTime == old(currentTime) && duration == old(duration)
    {
      if isPlaying {
        Pause();
      } else {
        Play();
      }
    }

    /**
     * `seek(time)`: assigns `time` to the element's position and to
     * `currentTime`, without clamping; does nothing without an element.
     */
    method Seek(time: real)
      modifies this
      ensures old(audio) == None ==> audio == None && currentTime == old(currentTime)
      ensures old(audio) != None ==>
        audio == Some(old(audio).value.(position := time)) && currentTime == time
      ensures isPlaying == old(isPlaying) && duration == old(duration)
    {
      if audio != None {
        var media := audio.value;
        audio := Some(media.(position := time));
        currentTime := time;
      }
    }

    /**
     * The element fires `timeupdate` reporting `position`; a registered
     * handler copies it into `currentTime`.
     */
    method OnTimeUpdate(position: real)
      requires audio != None
      modifies this
      ensures audio == Some(old(audio).value.(position := position))
      ensures currentTime == if TimeUpdate in old(audio).value.listeners then position else old(currentTime)
      ensures isPlaying == old(isPlaying) && duration == old(duration)
    {
      var media := audio.value.(position := position);
      audio := Some(media);
      if TimeUpdate in media.listeners {
        currentTime := media.position;
      }
    }

    /**
     * The element learns its duration and fires `loadedmetadata`; a
     * registered handler copies it into `duration`.
     */
    method OnLoadedMetadata(mediaDuration: real)
      requires audio != None
      modifies this
      ensures audio == Some(old(audio).value.(duration := mediaDuration))
      ensures duration == if LoadedMetadata in old(audio).value.listeners then mediaDuration else old(duration)
      ensures isPlaying == old(isPlaying) && currentTime == old(currentTime)
    {
      var media := audio.value.(duration := mediaDuration);
      audio := Some(media);
      if LoadedMetadata in media.listeners {
        duration := media.duration;
      }
    }

    /** The element fires `ended`; a registered handler clears `isPlaying`. */
    method OnEnded()
      requires audio != None
      modifies this`isPlaying
      ensures isPlaying == if Ended in audio.value.listeners then false else old(isPlaying)
    {
      if Ended in audio.value.listeners {
        isPlaying := false;
      }
    }

    /** The element fires `play`; a registered handler sets `isPlaying`. */
    method OnPlay()
      requires audio != None
      modifies this`isPlaying
      ensures isPlaying == if PlayEvent in audio.value.listeners then true else old(isPlaying)
    {
      if PlayEvent in audio.value.listeners {
        isPlaying := true;
      }
    }

    /** The element fires `pause`; a registered handler clears `isPlaying`. */
    method OnPause()
      requires audio != None
      modifies this`isPlaying
      ensures isPlaying == if PauseEvent in audio.value.listeners then false else old(isPlaying)
    {
      if PauseEvent in audio.value.listeners {
        isPlaying := false;
      }
    }
  }

  /**
   * The cleanup removes exactly what its setup added: whatever else is
   * registered on the element stays, and nothing of the hook's is left.
   */
  lemma CleanupUndoesSetup(registered: multiset<EventKind>)
    ensures (registered + HookListeners) - HookListeners == registered
    ensures multiset{} + HookListeners - HookListeners == multiset{}
  {
  }

  /**
   * Mounting and then unmounting the hook: the setup followed by its
   * cleanup. An existing element ends with exactly the listeners it had
   * before; a created one ends with none. The playback state is untouched.
   */
  method MountThenUnmount(player: AudioPlayer)
    modifies player
    ensures old(player.audio) == None ==> player.audio == Some(NewMedia)
    ensures old(player.audio) != None ==> player.audio == old(player.audio)
    ensures player.isPlaying == old(player.isPlaying)
    ensures player.currentTime == old(player.currentTime) && player.duration == old(player.duration)
  {
    player.Setup();
    player.Cleanup();
    if old(player.audio) == None {
      CleanupUndoesSetup(multiset{});
    } else {
      CleanupUndoesSetup(old(player.audio).value.listeners);
    }
  }

  /**
   * A client run: mount, load, play before the metadata arrives, seek past
   * both ends, unmount. What it asserts follows from the contracts alone.
   */
  method PlaybackWalkthrough()
  {
    var player := new AudioPlayer();
    player.Seek(3.0);
    assert player.currentTime == 0.0;

    player.Setup();
    assert player.audio.value.listeners == HookListeners;
    player.LoadAudio("blob:episode");
    player.Play();
    assert !player.isPlaying;
    player.OnPlay();
    assert player.isPlaying && player.duration == 0.0;
    assert player.audio.value.commands == [LoadCmd, PlayCmd];

    player.OnLoadedMetadata(120.0);
    assert player.duration == 120.0;
    player.Seek(-5.0);
    assert player.currentTime == -5.0;
    player.Seek(500.0);
    assert player.currentTime == 500.0 && player.isPlaying;

    player.Toggle();
    assert player.isPlaying;
    assert player.audio.value.commands == [LoadCmd, PlayCmd, PauseCmd];
    player.OnPause();
    assert !player.isPlaying;

    player.Cleanup();
    assert player.audio.value.listeners == multiset{};
    player.OnPlay();
    assert !player.isPlaying;
  }
}
