/**
  The status-line texts of the popup that depend on an outcome: the
  recognition error codes of `onerror` and the microphone failures of the
  start/stop button.
 */
module StatusMessages {

  /** The `errorMessages` table of `onerror`, keyed by error code. */
  const RecognitionErrors: map<string, string> := map[
    "no-speech" := "No se detectó habla. Intenta de nuevo.",
    "audio-capture" := "No se capturó audio. Verifica tu micrófono.",
    "not-allowed" := "Permiso denegado para usar el micrófono.",
    "service-not-allowed" := "El servicio no está permitido en este dispositivo.",
    "network" := "Error de red. Verifica tu conexión.",
    "other" := "Error desconocido. Intenta de nuevo."
  ]

  /** The texts the session and button handlers set. */
  const Dictating := "Dictado en curso..."
  const Stopped := "Dictado detenido."
  const Repeated := "Última frase repetida."
  const NothingToRepeat := "No hay frases para repetir."
  const Cleared := "Texto borrado."
  const LanguageChanged := "Idioma cambiado a: "

  /** Shown for a code the table does not name. */
  const UnknownError := "Error desconocido"

  /** Shown when the browser offers no microphone access at all. */
  const MicrophoneUnsupported := "El acceso al micrófono no es soportado en este navegador."

  /** Shown when the microphone request is refused with `NotAllowedError`. */
  const MicrophoneDenied :=
    "Permiso denegado para usar el micrófono. Asegúrate de haber concedido los permisos en el navegador."

  /** Shown for any other failure while acquiring the microphone or starting. */
  const MicrophoneFailed := "Error al acceder al micrófono."

  /**
    `errorMessages[code] || "Error desconocido"`: the table's text for a
    known code, the generic text otherwise.  The message is never empty.
   */
  function ErrorMessage(code: string): (m: string)
    ensures m != []
    ensures code in RecognitionErrors ==> m == RecognitionErrors[code]
    ensures code !in RecognitionErrors ==> m == UnknownError
  {
    if code in RecognitionErrors && RecognitionErrors[code] != "" then RecognitionErrors[code]
    else UnknownError
  }

  /** Distinct known codes give distinct messages. */
  lemma KnownCodesDistinguished(a: string, b: string)
    requires a in RecognitionErrors && b in RecognitionErrors && a != b
    ensures ErrorMessage(a) != ErrorMessage(b)
  {
  }

  /** The generic text is shown exactly for the codes the table does not name. */
  lemma FallbackExactlyForUnknown(code: string)
    ensures ErrorMessage(code) == UnknownError <==> code !in RecognitionErrors
  {
  }

  /** `handleMicrophoneError`: the text for an exception of the given name. */
  function MicrophoneErrorMessage(errorName: string): (m: string)
    ensures m != []
    ensures m == MicrophoneDenied <==> errorName == "NotAllowedError"
    ensures errorName != "NotAllowedError" ==> m == MicrophoneFailed
  {
    if errorName == "NotAllowedError" then MicrophoneDenied else MicrophoneFailed
  }
}
