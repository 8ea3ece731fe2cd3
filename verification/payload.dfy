/**
 The request payload `main` builds (main.go:131-168): a form whose keys
 each hold one value (`url.Values` filled with `Set`), here a
 `map<string, string>` reassigned by each `Set`.
 */
module Payload {

  /** The string-valued command-line flags that go into a notification. */
  datatype Flags = Flags(
    message: string,
    device: string,
    priority: string,
    sound: string,
    timestamp: string,
    title: string,
    url: string,
    urlTitle: string)

  /** The information one request carries: the two keys from the dotfile and the flags. */
  datatype Request = Request(token: string, user: string, flags: Flags)

  /** The keys every payload holds. */
  const Mandatory: set<string> := {"token", "user", "message"}

  /** The twelve keys a payload can hold; the URL title travels as `urlTitle`. */
  const FormKeys: set<string> :=
    Mandatory + {"device", "priority", "retry", "expire", "sound", "timestamp", "title", "url", "urlTitle"}

  /** The emergency priority flag value, and the retry/expire values it brings along. */
  const Emergency: string := "2"
  const EmergencyRetry: string := "60"
  const EmergencyExpire: string := "3600"

  /** `key` is in the form exactly when `value` is non-empty, and then holds `value` unchanged. */
  predicate OptionalField(v: map<string, string>, key: string, value: string)
  {
    (key in v <==> value != "") && (key in v ==> v[key] == value)
  }

  /** `url.Values.Get`: the value under `key`, or the empty string when it is absent. */
  function Get(v: map<string, string>, key: string): string
  {
    if key in v then v[key] else ""
  }

  /**
   Reads a payload back into the request it carries, an absent key read as
   an unset (empty) flag. The `retry`/`expire` additions are not part of it.
   */
  function Decode(v: map<string, string>): Request
  {
    Request(Get(v, "token"), Get(v, "user"),
      Flags(Get(v, "message"), Get(v, "device"), Get(v, "priority"), Get(v, "sound"),
            Get(v, "timestamp"), Get(v, "title"), Get(v, "url"), Get(v, "urlTitle")))
  }

  /** `Set(key, value)` when the flag is non-empty, otherwise the form unchanged. */
  function SetNonEmpty(v: map<string, string>, key: string, value: string): (w: map<string, string>)
    ensures value != "" ==> w == v[key := value]
    ensures value == "" ==> w == v
  {
    if value != "" then v[key := value] else v
  }

  /**
   The form `main` sends for the two keys and the flags: the three
   mandatory keys, each optional key only for a non-empty flag, and
   `retry`/`expire` besides only for priority exactly `2`.
   */
  function Form(token: string, user: string, f: Flags): map<string, string>
  {
    var v := map["token" := token, "user" := user, "message" := f.message];
    var v := SetNonEmpty(v, "device", f.device);
    var v := SetNonEmpty(v, "priority", f.priority);
    var v := if f.priority == Emergency then v["retry" := EmergencyRetry]["expire" := EmergencyExpire] else v;
    var v := SetNonEmpty(v, "sound", f.sound);
    var v := SetNonEmpty(v, "timestamp", f.timestamp);
    var v := SetNonEmpty(v, "title", f.title);
    var v := SetNonEmpty(v, "url", f.url);
    SetNonEmpty(v, "urlTitle", f.urlTitle)
  }

  /**
   Builds the form step by step as `main` does (main.go:131-168), each
   optional `Set` guarded by its flag being non-empty, and `retry`/`expire`
   nested under the priority check.
   */
  method BuildPayload(token: string, user: string, f: Flags) returns (v: map<string, string>)
    ensures v == Form(token, user, f)
    ensures v.Keys <= FormKeys
    ensures HasMandatory(v, token, user, f.message)
    ensures OptionalField(v, "device", f.device) && OptionalField(v, "priority", f.priority)
    ensures ("retry" in v <==> f.priority == Emergency) && ("expire" in v <==> f.priority == Emergency)
    ensures ("retry" in v ==> v["retry"] == EmergencyRetry) && ("expire" in v ==> v["expire"] == EmergencyExpire)
    ensures OptionalField(v, "sound", f.sound) && OptionalField(v, "timestamp", f.timestamp)
    ensures OptionalField(v, "title", f.title) && OptionalField(v, "url", f.url)
    ensures OptionalField(v, "urlTitle", f.urlTitle)
    ensures forall k :: k in v && k !in Mandatory ==> v[k] != ""
    ensures Decode(v) == Request(token, user, f)
  {
    v := map[];
    v := v["token" := token];
    v := v["user" := user];
    v := v["message" := f.message];

    if f.device != "" {
      v := v["device" := f.device];
    }

    if f.priority != "" {
      v := v["priority" := f.priority];
      if f.priority == Emergency {
        v := v["retry" := EmergencyRetry];
        v := v["expire" := EmergencyExpire];
      }
    }

    if f.sound != "" {
      v := v["sound" := f.sound];
    }

    if f.timestamp != "" {
      v := v["timestamp" := f.timestamp];
    }

    if f.title != "" {
      v := v["title" := f.title];
    }

    if f.url != "" {
      v := v["url" := f.url];
    }

    if f.urlTitle != "" {
      v := v["urlTitle" := f.urlTitle];
    }

    assert v == Form(token, user, f);
    FormKeysBounded(token, user, f);
    FormMandatory(token, user, f);
    FormDevice(token, user, f);
    FormPriority(token, user, f);
    FormDisplayOptions(token, user, f);
    FormOptionalValuesNonEmpty(token, user, f);
    DecodeForm(token, user, f);
  }

  /** The form holds the three mandatory keys with the two keys and the message. */
  predicate HasMandatory(v: map<string, string>, token: string, user: string, message: string)
  {
    && "token" in v && "user" in v && "message" in v
    && v["token"] == token && v["user"] == user && v["message"] == message
  }

  /** The three mandatory keys are always sent, holding the two keys and the message. */
  lemma FormMandatory(token: string, user: string, f: Flags)
    ensures HasMandatory(Form(token, user, f), token, user, f.message)
  {
    var v0 := map["token" := token, "user" := user, "message" := f.message];
    var v1 := SetNonEmpty(v0, "device", f.device);
    var v2 := SetNonEmpty(v1, "priority", f.priority);
    assert HasMandatory(v2, token, user, f.message);
    var v3 := if f.priority == Emergency then v2["retry" := EmergencyRetry]["expire" := EmergencyExpire] else v2;
    var v4 := SetNonEmpty(v3, "sound", f.sound);
    var v5 := SetNonEmpty(v4, "timestamp", f.timestamp);
    assert HasMandatory(v5, token, user, f.message);
    var v6 := SetNonEmpty(v5, "title", f.title);
    var v7 := SetNonEmpty(v6, "url", f.url);
    var v8 := SetNonEmpty(v7, "urlTitle", f.urlTitle);
    assert v8 == Form(token, user, f);
  }

  /** Only the twelve form keys occur. */
  lemma FormKeysBounded(token: string, user: string, f: Flags)
    ensures Form(token, user, f).Keys <= FormKeys
  {
  }

  /** `device` is present exactly when its flag is non-empty, with the flag's value. */
  lemma FormDevice(token: string, user: string, f: Flags)
    ensures OptionalField(Form(token, user, f), "device", f.device)
  {
  }

  /**
   `priority` is present exactly when its flag is non-empty, and
   `retry=60`, `expire=3600` exactly when the flag is exactly `2`.
   */
  lemma FormPriority(token: string, user: string, f: Flags)
    ensures var v := Form(token, user, f);
      && OptionalField(v, "priority", f.priority)
      && ("retry" in v <==> f.priority == Emergency)
      && ("expire" in v <==> f.priority == Emergency)
      && ("retry" in v ==> v["retry"] == EmergencyRetry)
      && ("expire" in v ==> v["expire"] == EmergencyExpire)
  {
    var v0 := map["token" := token, "user" := user, "message" := f.message];
    var v1 := SetNonEmpty(v0, "device", f.device);
    var v2 := SetNonEmpty(v1, "priority", f.priority);
    var v3 := if f.priority == Emergency then v2["retry" := EmergencyRetry]["expire" := EmergencyExpire] else v2;
    assert OptionalField(v3, "priority", f.priority)
      && ("retry" in v3 <==> f.priority == Emergency) && ("expire" in v3 <==> f.priority == Emergency)
      && ("retry" in v3 ==> v3["retry"] == EmergencyRetry) && ("expire" in v3 ==> v3["expire"] == EmergencyExpire);
    var v4 := SetNonEmpty(v3, "sound", f.sound);
    var v5 := SetNonEmpty(v4, "timestamp", f.timestamp);
    assert OptionalField(v5, "priority", f.priority)
      && ("retry" in v5 <==> f.priority == Emergency) && ("expire" in v5 <==> f.priority == Emergency)
      && ("retry" in v5 ==> v5["retry"] == EmergencyRetry) && ("expire" in v5 ==> v5["expire"] == EmergencyExpire);
    var v6 := SetNonEmpty(v5, "title", f.title);
    var v7 := SetNonEmpty(v6, "url", f.url);
    var v8 := SetNonEmpty(v7, "urlTitle", f.urlTitle);
    assert v8 == Form(token, user, f);
  }

  /** Sound, timestamp, title, url and url title are each present exactly for a non-empty flag, with its value. */
  lemma FormDisplayOptions(token: string, user: string, f: Flags)
    ensures var v := Form(token, user, f);
      && OptionalField(v, "sound", f.sound)
      && OptionalField(v, "timestamp", f.timestamp)
      && OptionalField(v, "title", f.title)
      && OptionalField(v, "url", f.url)
      && OptionalField(v, "urlTitle", f.urlTitle)
  {
    var v0 := map["token" := token, "user" := user, "message" := f.message];
    var v1 := SetNonEmpty(v0, "device", f.device);
    var v2 := SetNonEmpty(v1, "priority", f.priority);
    var v3 := if f.priority == Emergency then v2["retry" := EmergencyRetry]["expire" := EmergencyExpire] else v2;
    assert "sound" !in v3 && "timestamp" !in v3 && "title" !in v3 && "url" !in v3 && "urlTitle" !in v3;
    var v4 := SetNonEmpty(v3, "sound", f.sound);
    var v5 := SetNonEmpty(v4, "timestamp", f.timestamp);
    assert OptionalField(v5, "sound", f.sound) && OptionalField(v5, "timestamp", f.timestamp);
    assert "title" !in v5 && "url" !in v5 && "urlTitle" !in v5;
    var v6 := SetNonEmpty(v5, "title", f.title);
    var v7 := SetNonEmpty(v6, "url", f.url);
    var v8 := SetNonEmpty(v7, "urlTitle", f.urlTitle);
    assert v8 == Form(token, user, f);
  }

  /** No optional key is ever sent with an empty value. */
  lemma FormOptionalValuesNonEmpty(token: string, user: string, f: Flags)
    ensures var v := Form(token, user, f); forall k :: k in v && k !in Mandatory ==> v[k] != ""
  {
    var v0 := map["token" := token, "user" := user, "message" := f.message];
    var v1 := SetNonEmpty(v0, "device", f.device);
    var v2 := SetNonEmpty(v1, "priority", f.priority);
    var v3 := if f.priority == Emergency then v2["retry" := EmergencyRetry]["expire" := EmergencyExpire] else v2;
    assert forall k :: k in v3 && k !in Mandatory ==> v3[k] != "";
    var v4 := SetNonEmpty(v3, "sound", f.sound);
    var v5 := SetNonEmpty(v4, "timestamp", f.timestamp);
    assert forall k :: k in v5 && k !in Mandatory ==> v5[k] != "";
    var v6 := SetNonEmpty(v5, "title", f.title);
    var v7 := SetNonEmpty(v6, "url", f.url);
    var v8 := SetNonEmpty(v7, "urlTitle", f.urlTitle);
    assert v8 == Form(token, user, f);
  }

  /** The form reads back as the request it was built from. */
  lemma DecodeForm(token: string, user: string, f: Flags)
    ensures Decode(Form(token, user, f)) == Request(token, user, f)
  {
    FormMandatory(token, user, f);
    FormDevice(token, user, f);
    FormPriority(token, user, f);
    FormDisplayOptions(token, user, f);
    var v := Form(token, user, f);
    assert Get(v, "device") == f.device && Get(v, "priority") == f.priority;
    assert Get(v, "sound") == f.sound && Get(v, "timestamp") == f.timestamp && Get(v, "title") == f.title;
    assert Get(v, "url") == f.url && Get(v, "urlTitle") == f.urlTitle;
  }
}
