/**
 * The background-music player: a play/pause toggle, a mute toggle, a one-time
 * "play music" prompt and a remembered first interaction. The `<audio>`
 * element and `localStorage` are modelled as small objects of their own.
 */
module AudioPlayer {
  import opened Wrappers

  /** The storage key that remembers the visitor has used the player. */
  const InteractedKey: string := "weddingMusicInteracted"

  /** The `<audio>` element: what the page can observe of it and whether its `ended` listener is attached. */
  class AudioElement {
    var paused: bool
    var muted: bool
    var currentTime: int
    var endedListener: bool

    /** A fresh `<audio loop preload="auto">`: paused, not muted, at the start, no listener. */
    constructor ()
      ensures paused && !muted && currentTime == 0 && !endedListener
    {
      paused, muted, currentTime, endedListener := true, false, 0, false;
    }

    /** `play()`: starts playback when the browser allows it; a rejected play leaves the element as it was. */
    method Play(allowed: bool)
      modifies this
      ensures paused == (old(paused) && !allowed)
      ensures muted == old(muted) && currentTime == old(currentTime) && endedListener == old(endedListener)
    {
      if allowed {
        paused := false;
      }
    }

    /** `pause()`. */
    method Pause()
      modifies this
      ensures paused
      ensures muted == old(muted) && currentTime == old(currentTime) && endedListener == old(endedListener)
    {
      paused := true;
    }
  }

  /** `localStorage`: string keys to string values. */
  class Storage {
    var entries: map<string, string>

    constructor (entries: map<string, string>)
      ensures this.entries == entries
    {
      this.entries := entries;
    }

    /** `getItem(key)`: the stored value, or `null`. */
    function GetItem(key: string): Option<string>
      reads this
    {
      if key in entries then Some(entries[key]) else None
    }

    /** `setItem(key, value)`: that key now holds `value`, the others are kept. */
    method SetItem(key: string, value: string)
      modifies this
      ensures entries == old(entries)[key := value]
    {
      entries := entries[key := value];
    }
  }

  /** The stored value marks a returning visitor only when it is exactly the string "true". */
  predicate RemembersInteraction(stored: Option<string>) {
    stored == Some("true")
  }

  /** The `AudioPlayer` component. `audio` is the element behind `audioRef`, `null` when it did not mount. */
  class Player {
    var isPlaying: bool
    var isMuted: bool
    var hasInteracted: bool
    var showPlayPrompt: bool
    const audio: AudioElement?
    const storage: Storage

    /**
     * The mute flag shown matches the element's, an interaction hides the
     * prompt for good and is remembered in storage, and the element's
     * `ended` listener is attached while mounted.
     */
    ghost predicate Valid()
      reads this, audio, storage
    {
      && (audio != null ==> audio.muted == isMuted && audio.endedListener)
      && (hasInteracted ==> !showPlayPrompt)
      && (hasInteracted <==> RemembersInteraction(storage.GetItem(InteractedKey)))
    }

    /** Neither latch goes back: `hasInteracted` stays true once set, and a hidden prompt stays hidden. */
    twostate predicate LatchesKept()
      reads this
    {
      (old(hasInteracted) ==> hasInteracted) && (showPlayPrompt ==> old(showPlayPrompt))
    }

    /**
     * First render and both mount effects: nothing plays and nothing is muted;
     * a stored "true" marks a returning visitor and hides the prompt, anything
     * else leaves it shown; the `ended` listener is attached to the element.
     */
    constructor (audio: AudioElement?, storage: Storage)
      requires audio != null ==> !audio.muted && !audio.endedListener
      modifies audio
      ensures Valid() && this.audio == audio && this.storage == storage
      ensures !isPlaying && !isMuted
      ensures hasInteracted == RemembersInteraction(storage.GetItem(InteractedKey))
      ensures showPlayPrompt == !hasInteracted
      ensures storage.entries == old(storage.entries)
      ensures audio != null ==> audio.paused == old(audio.paused) && audio.currentTime == old(audio.currentTime)
    {
      this.audio := audio;
      this.storage := storage;
      isPlaying := false;
      isMuted := false;
      var remembered := RemembersInteraction(storage.GetItem(InteractedKey));
      hasInteracted := remembered;
      showPlayPrompt := !remembered;
      new;
      if audio != null {
        audio.endedListener := true;
      }
    }

    /** The first toggle of either kind: remember it in storage and hide the prompt. Later ones do nothing here. */
    method MarkInteracted()
      requires Valid()
      modifies this, storage
      ensures Valid() && LatchesKept() && hasInteracted && !showPlayPrompt
      ensures !old(hasInteracted) ==> storage.entries == old(storage.entries)[InteractedKey := "true"]
      ensures old(hasInteracted) ==> storage.entries == old(storage.entries)
      ensures isPlaying == old(isPlaying) && isMuted == old(isMuted)
    {
      if !hasInteracted {
        storage.SetItem(InteractedKey, "true");
        hasInteracted := true;
        showPlayPrompt := false;
      }
    }

    /**
     * `togglePlay`: nothing without an element; otherwise pause when playing
     * and ask to play when not, then flip `isPlaying` whether or not the
     * browser let it play.
     */
    method TogglePlay(playAllowed: bool)
      requires Valid()
      modifies this, storage, audio
      ensures Valid() && LatchesKept()
      ensures audio == null ==> unchanged(this, storage)
      ensures audio != null ==>
                && isPlaying == !old(isPlaying)
                && audio.paused == (old(isPlaying) || (old(audio.paused) && !playAllowed))
                && audio.muted == old(audio.muted) && audio.currentTime == old(audio.currentTime)
                && hasInteracted && !showPlayPrompt && isMuted == old(isMuted)
                && storage.entries == old(storage.entries)[InteractedKey := "true"]
    {
      if audio == null {
        return;
      }
      if isPlaying {
        audio.Pause();
      } else {
        audio.Play(playAllowed);
      }
      MarkInteracted();
      isPlaying := !isPlaying;
    }

    /** `toggleMute`: nothing without an element; otherwise flip the element's and the shown mute flag together. */
    method ToggleMute()
      requires Valid()
      modifies this, storage, audio
      ensures Valid() && LatchesKept()
      ensures audio == null ==> unchanged(this, storage)
      ensures audio != null ==>
                && isMuted == !old(isMuted) && audio.muted == !old(audio.muted)
                && audio.paused == old(audio.paused) && audio.currentTime == old(audio.currentTime)
                && hasInteracted && !showPlayPrompt && isPlaying == old(isPlaying)
                && storage.entries == old(storage.entries)[InteractedKey := "true"]
    {
      if audio == null {
        return;
      }
      audio.muted := !audio.muted;
      isMuted := !isMuted;
      MarkInteracted();
    }

    /** `dismissPlayPrompt`: hides the prompt and touches nothing else. */
    method DismissPlayPrompt()
      requires Valid()
      modifies this
      ensures Valid() && LatchesKept() && !showPlayPrompt
      ensures isPlaying == old(isPlaying) && isMuted == old(isMuted) && hasInteracted == old(hasInteracted)
    {
      showPlayPrompt := false;
    }

    /** The `ended` listener: rewind, ask to play again, and show the player as playing. */
    method HandleEnded(playAllowed: bool)
      requires Valid() && audio != null
      modifies this, audio
      ensures Valid() && LatchesKept()
      ensures isPlaying && audio.currentTime == 0 && audio.paused == (old(audio.paused) && !playAllowed)
      ensures audio.muted == old(audio.muted) && audio.endedListener
      ensures isMuted == old(isMuted) && hasInteracted == old(hasInteracted) && showPlayPrompt == old(showPlayPrompt)
    {
      isPlaying := false;
      audio.currentTime := 0;
      audio.Play(playAllowed);
      isPlaying := true;
    }

    /** The listener effect's cleanup on unmount: detach the listener and pause. */
    method Unmount()
      requires Valid()
      modifies audio
      ensures audio != null ==> !audio.endedListener && audio.paused
      ensures audio != null ==> audio.muted == old(audio.muted) && audio.currentTime == old(audio.currentTime)
    {
      if audio != null {
        audio.endedListener := false;
        audio.Pause();
      }
    }
  }

  /**
   * Starting from a paused, never-played element, a first press of play that
   * the browser blocks leaves the player showing "playing" over a paused
   * element: `isPlaying` does not follow the element.
   */
  method BlockedFirstPlay() returns (p: Player)
    ensures p.audio != null && p.isPlaying && p.audio.paused
  {
    var a := new AudioElement();
    var s := new Storage(map[]);
    p := new Player(a, s);
    p.TogglePlay(false);
  }
}
