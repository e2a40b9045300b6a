/**
 * The reduced-effects toggle (static/js/effects-toggle.js): the visitor's
 * choice is kept in localStorage under one key as '1' or '0'; without a
 * stored choice the system's prefers-reduced-motion setting decides. The
 * state is shown by a class on body and html, the toggle button's
 * attributes, icon and tooltip, and by pausing or playing the hero video.
 *
 * localStorage is the stored value plus whether access to it works at all
 * (a failing access throws, and the script swallows it); matchMedia is
 * None when the browser lacks it, else whether the query matches. What the
 * page contains (toggle, icon, tooltip, video) is fixed at construction.
 */
module EffectsToggle {
  import opened Wrappers

  const StorageKey: string := "elysium_reduced_effects"
  const ReducedClass: string := "reduced-effects"
  const ActiveClass: string := "is-active"

  /** The last call the script made on the hero video. */
  datatype VideoCall = Pause | Play

  /** classList.toggle(name, force): `name` is present exactly when `on`; the other classes stay. */
  function ToggleClass(classes: set<string>, name: string, on: bool): (r: set<string>)
    ensures name in r <==> on
    ensures forall c :: c != name ==> (c in r <==> c in classes)
  {
    if on then classes + {name} else classes - {name}
  }

  /** String(b) for a boolean. */
  function JsBool(b: bool): string {
    if b then "true" else "false"
  }

  /** The toggle's title and tooltip text. */
  function EffectsLabel(isReduced: bool): string {
    if isReduced then "Effects: Off" else "Effects: On"
  }

  function IconClass(isReduced: bool): string {
    if isReduced then "fa-solid fa-eye-slash" else "fa-solid fa-wand-magic-sparkles"
  }

  /** The stored value as written by setStoredState. */
  function StoredFlag(isReduced: bool): string {
    if isReduced then "1" else "0"
  }

  /** safeGet: the stored value, or null when access to storage throws. */
  function SafeGet(storageWorks: bool, stored: Option<string>): (r: Option<string>)
    ensures !storageWorks ==> r.None?
    ensures storageWorks ==> r == stored
  {
    if storageWorks then stored else None
  }

  /** getInitialReducedState: a stored '1' or '0' decides, else the media query, else not reduced. */
  function InitialReduced(stored: Option<string>, media: Option<bool>): (r: bool)
    ensures stored == Some("1") ==> r
    ensures stored == Some("0") ==> !r
    ensures stored != Some("1") && stored != Some("0") ==> (r <==> media == Some(true))
  {
    if stored == Some("1") then true
    else if stored == Some("0") then false
    else if media.Some? then media.value
    else false
  }

  /**
   * A stored choice survives a reload whatever the system setting, as long
   * as storage works; with failing storage the system setting decides.
   */
  lemma StoredChoicePersists(isReduced: bool, media: Option<bool>, storageWorks: bool)
    ensures storageWorks ==> InitialReduced(SafeGet(storageWorks, Some(StoredFlag(isReduced))), media) == isReduced
    ensures !storageWorks ==>
      InitialReduced(SafeGet(storageWorks, Some(StoredFlag(isReduced))), media) == (media == Some(true))
  {
    assert "1" != "0" by { assert "1"[0] != "0"[0]; }
  }

  class EffectsPage {
    const storageWorks: bool
    const hasToggle: bool
    const hasIcon: bool
    const hasTooltip: bool
    const hasVideo: bool

    var stored: Option<string>
    var systemPrefers: Option<bool>
    var bodyClasses: set<string>
    var htmlClasses: set<string>
    var toggleClasses: set<string>
    var ariaPressed: Option<string>
    var title: Option<string>
    var iconClass: Option<string>
    var tooltipText: Option<string>
    var videoCall: Option<VideoCall>
    var autoplay: bool

    /** The current state as the click handler reads it: the class on body. */
    predicate Reduced()
      reads this
    {
      ReducedClass in bodyClasses
    }

    /** Everything applyState(isReduced) shows is in place. */
    predicate Shows(isReduced: bool)
      reads this
    {
      && (ReducedClass in bodyClasses <==> isReduced)
      && (ReducedClass in htmlClasses <==> isReduced)
      && (hasToggle ==>
            && ariaPressed == Some(JsBool(isReduced))
            && title == Some(EffectsLabel(isReduced))
            && (ActiveClass in toggleClasses <==> isReduced)
            && (hasIcon ==> iconClass == Some(IconClass(isReduced)))
            && (hasTooltip ==> tooltipText == Some(EffectsLabel(isReduced))))
      && (hasVideo ==> videoCall == Some(if isReduced then Pause else Play))
      && (hasVideo && isReduced ==> !autoplay)
    }

    /** Page load: build the page, then applyState(getInitialReducedState()). */
    constructor (storageWorks: bool, stored: Option<string>, media: Option<bool>,
                 hasToggle: bool, hasIcon: bool, hasTooltip: bool, hasVideo: bool,
                 bodyClasses: set<string>, htmlClasses: set<string>, toggleClasses: set<string>, autoplay: bool)
      ensures this.storageWorks == storageWorks && this.stored == stored && systemPrefers == media
      ensures this.hasToggle == hasToggle && this.hasIcon == hasIcon && this.hasTooltip == hasTooltip && this.hasVideo == hasVideo
      ensures Shows(InitialReduced(SafeGet(storageWorks, stored), media))
    {
      this.storageWorks := storageWorks;
      this.stored := stored;
      systemPrefers := media;
      this.hasToggle := hasToggle;
      this.hasIcon := hasIcon;
      this.hasTooltip := hasTooltip;
      this.hasVideo := hasVideo;
      this.bodyClasses := bodyClasses;
      this.htmlClasses := htmlClasses;
      this.toggleClasses := toggleClasses;
      ariaPressed := None;
      title := None;
      iconClass := None;
      tooltipText := None;
      videoCall := None;
      this.autoplay := autoplay;
      new;
      var initial := GetInitialReducedState();
      ApplyState(initial);
    }

    /** safeGet. */
    method SafeGetItem() returns (value: Option<string>)
      ensures value == SafeGet(storageWorks, stored)
    {
      if !storageWorks {
        return None;
      }
      value := stored;
    }

    /** safeSet: stores the value, or changes nothing when storage throws. */
    method SafeSetItem(value: string)
      modifies this`stored
      ensures stored == if storageWorks then Some(value) else old(stored)
    {
      if storageWorks {
        stored := Some(value);
      }
    }

    method GetInitialReducedState() returns (isReduced: bool)
      ensures isReduced == InitialReduced(SafeGet(storageWorks, stored), systemPrefers)
    {
      var s := SafeGetItem();
      if s == Some("1") {
        return true;
      }
      if s == Some("0") {
        return false;
      }
      if systemPrefers.Some? {
        return systemPrefers.value;
      }
      isReduced := false;
    }

    /**
     * applyState: the reduced class on body and html, the toggle's
     * aria-pressed, title, class, icon and tooltip, and the video paused
     * (autoplay removed) or asked to play. Storage is not touched and other
     * classes stay.
     */
    method ApplyState(isReduced: bool)
      modifies this`bodyClasses, this`htmlClasses, this`toggleClasses, this`ariaPressed, this`title,
               this`iconClass, this`tooltipText, this`videoCall, this`autoplay
      ensures Shows(isReduced)
      ensures bodyClasses == ToggleClass(old(bodyClasses), ReducedClass, isReduced)
      ensures htmlClasses == ToggleClass(old(htmlClasses), ReducedClass, isReduced)
      ensures toggleClasses == if hasToggle then ToggleClass(old(toggleClasses), ActiveClass, isReduced) else old(toggleClasses)
      ensures !hasToggle ==> (ariaPressed == old(ariaPressed) && title == old(title) && iconClass == old(iconClass)
        && tooltipText == old(tooltipText))
      ensures hasToggle && !hasIcon ==> iconClass == old(iconClass)
      ensures hasToggle && !hasTooltip ==> tooltipText == old(tooltipText)
      ensures !hasVideo ==> videoCall == old(videoCall) && autoplay == old(autoplay)
      ensures !isReduced ==> autoplay == old(autoplay)
    {
      bodyClasses := ToggleClass(bodyClasses, ReducedClass, isReduced);
      htmlClasses := ToggleClass(htmlClasses, ReducedClass, isReduced);
      if hasToggle {
        ariaPressed := Some(JsBool(isReduced));
        title := Some(EffectsLabel(isReduced));
        toggleClasses := ToggleClass(toggleClasses, ActiveClass, isReduced);
        if hasIcon {
          iconClass := Some(IconClass(isReduced));
        }
        if hasTooltip {
          tooltipText := Some(EffectsLabel(isReduced));
        }
      }
      if isReduced {
        if hasVideo {
          videoCall := Some(Pause);
          autoplay := false;
        }
        return;
      }
      if hasVideo {
        videoCall := Some(Play);
      }
    }

    /** handleClick: flip the state shown on body, store the new choice, show it. */
    method HandleClick()
      modifies this`stored, this`bodyClasses, this`htmlClasses, this`toggleClasses, this`ariaPressed, this`title,
               this`iconClass, this`tooltipText, this`videoCall, this`autoplay
      ensures Reduced() == !old(Reduced())
      ensures Shows(!old(Reduced()))
      ensures stored == if storageWorks then Some(StoredFlag(!old(Reduced()))) else old(stored)
      ensures var next := !old(Reduced());
        && bodyClasses == ToggleClass(old(bodyClasses), ReducedClass, next)
        && htmlClasses == ToggleClass(old(htmlClasses), ReducedClass, next)
        && toggleClasses == (if hasToggle then ToggleClass(old(toggleClasses), ActiveClass, next) else old(toggleClasses))
        && (!next ==> autoplay == old(autoplay))
      ensures !hasToggle ==> (ariaPressed == old(ariaPressed) && title == old(title) && iconClass == old(iconClass)
        && tooltipText == old(tooltipText))
      ensures hasToggle && !hasIcon ==> iconClass == old(iconClass)
      ensures hasToggle && !hasTooltip ==> tooltipText == old(tooltipText)
      ensures !hasVideo ==> videoCall == old(videoCall) && autoplay == old(autoplay)
    {
      var next := ReducedClass !in bodyClasses;
      SafeSetItem(StoredFlag(next));
      ApplyState(next);
    }

    /**
     * handleSystemChange, once the system setting has become `matches`: a
     * stored '1' or '0' wins and nothing changes; otherwise the new setting
     * is shown.
     */
    method HandleSystemChange(matches: bool)
      requires systemPrefers.Some?
      modifies this`systemPrefers, this`bodyClasses, this`htmlClasses, this`toggleClasses, this`ariaPressed,
               this`title, this`iconClass, this`tooltipText, this`videoCall, this`autoplay
      ensures systemPrefers == Some(matches)
      ensures var s := SafeGet(storageWorks, stored);
        if s == Some("1") || s == Some("0") then
          && bodyClasses == old(bodyClasses) && htmlClasses == old(htmlClasses) && toggleClasses == old(toggleClasses)
          && ariaPressed == old(ariaPressed) && title == old(title) && iconClass == old(iconClass)
          && tooltipText == old(tooltipText) && videoCall == old(videoCall) && autoplay == old(autoplay)
        else
          && Shows(matches)
          && bodyClasses == ToggleClass(old(bodyClasses), ReducedClass, matches)
          && htmlClasses == ToggleClass(old(htmlClasses), ReducedClass, matches)
          && toggleClasses == (if hasToggle then ToggleClass(old(toggleClasses), ActiveClass, matches) else old(toggleClasses))
          && (!hasToggle ==>
                ariaPressed == old(ariaPressed) && title == old(title) && iconClass == old(iconClass)
                && tooltipText == old(tooltipText))
          && (hasToggle && !hasIcon ==> iconClass == old(iconClass))
          && (hasToggle && !hasTooltip ==> tooltipText == old(tooltipText))
          && (!hasVideo ==> videoCall == old(videoCall) && autoplay == old(autoplay))
          && (!matches ==> autoplay == old(autoplay))
    {
      systemPrefers := Some(matches);
      var s := SafeGetItem();
      if s == Some("1") || s == Some("0") {
        return;
      }
      ApplyState(matches);
    }
  }
}
